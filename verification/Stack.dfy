/**
 * The decorator chain that `main.go` assembles, block cache over breaker over Redis, with whole calls
 * as single steps; and the proof that on a healthy store the cache is invisible.
 */
module Stack {
  import opened Prelude
  import opened Store
  import opened StorageKeys
  import opened Redis
  import opened StoreRuns
  import opened BlockCache
  import opened Breaker

  /** What the network does to a call: the request or the reply may be lost, both surface as an error. */
  datatype Fault = Healthy | LostRequest | LostReply

  datatype Config = Config(prefix: string, threshold: int, cooldown: int, cached: bool, maxLen: int, maxTTL: int)

  datatype Layers = Layers(db: Db, circuit: Circuit, entries: Entries, hits: int)

  function Failed(call: Call): Answer {
    match call
    case ConsumeCall(_, _) => Consumed(Err)
    case TakeCall(_, _) => Taken(Err)
  }

  predicate Succeeded(a: Answer) {
    match a
    case Consumed(r) => r.Ok?
    case Taken(r) => r.Ok?
  }

  /** The script, as far as the network lets it. */
  function Remote(db: Db, prefix: string, e: Event, fault: Fault): (Db, Answer) {
    var (db', a) := if fault.LostRequest? then (db, Failed(e.call)) else StoreStep(db, prefix, e);
    (db', if fault.Healthy? then a else Failed(e.call))
  }

  /** Breaker over Redis. */
  function InnerStep(cfg: Config, s: Layers, e: Event, fault: Fault): (Layers, Answer) {
    var (c, admitted) := AllowStep(s.circuit, cfg.threshold, e.now);
    if !admitted then (s, Failed(e.call))
    else
      var (db, a) := Remote(s.db, cfg.prefix, e, fault);
      (s.(db := db, circuit := RecordStep(c, cfg.threshold, cfg.cooldown, Succeeded(a), e.now)), a)
  }

  function CacheHit(cfg: Config, s: Layers, e: Event): Option<int> {
    if cfg.cached && e.call.ConsumeCall? then Lookup(s.entries, e.call.key.String(), e.now) else None
  }

  /** An answer worth remembering: a block whose length is known. */
  predicate Cacheable(a: Answer) {
    a.Consumed? && a.result.Ok? && a.result.value.blocked && a.result.value.retryAfter > 0
  }

  /** Cache over breaker over Redis. */
  function StackStep(cfg: Config, s: Layers, e: Event, fault: Fault): (Layers, Answer) {
    var hit := CacheHit(cfg, s, e);
    if hit.Some? then
      (s.(hits := s.hits + 1), Consumed(Ok(Result(true, -1, hit.value - e.now))))
    else
      var (s', a) := InnerStep(cfg, s, e, fault);
      if cfg.cached && Cacheable(a) then
        (s'.(entries := RememberStep(s'.entries, e.call.key.String(), a.result.value.retryAfter, cfg.maxLen, cfg.maxTTL, e.now)), a)
      else (s', a)
  }

  class StoreStack {
    const cfg: Config
    const store: RedisStore
    const breaker: CircuitBreaker
    const cache: Cache

    constructor (cfg: Config, server: Server)
      ensures this.cfg == cfg && Wired() && store.server == server
      ensures fresh(breaker) && fresh(cache)
      ensures Value() == Layers(server.db, CLOSED, map[], 0)
    {
      this.cfg := cfg;
      this.store := new RedisStore(server, cfg.prefix);
      this.breaker := new CircuitBreaker(cfg.threshold, cfg.cooldown);
      this.cache := new Cache(cfg.maxLen, cfg.maxTTL);
    }

    predicate Wired() {
      && store.prefix == cfg.prefix
      && breaker.threshold == cfg.threshold && breaker.cooldown == cfg.cooldown
      && cache.maxLen == cfg.maxLen && cache.maxTTL == cfg.maxTTL
    }

    ghost function Value(): Layers
      reads store.server, breaker, cache
    {
      Layers(store.server.db, breaker.Value(), cache.entries, cache.hits)
    }

    /** `breaker.Store.Consume` and `Take`. */
    method Inner(e: Event, fault: Fault) returns (a: Answer)
      requires Wired()
      modifies store.server, breaker
      ensures (Value(), a) == InnerStep(cfg, old(Value()), e, fault)
    {
      var admitted := breaker.Allow(e.now);
      if !admitted {
        return Failed(e.call);
      }
      a := Failed(e.call);
      if !fault.LostRequest? {
        var reply := Run(e);
        if fault.Healthy? {
          a := reply;
        }
      }
      breaker.Record(Succeeded(a), e.now);
    }

    method Run(e: Event) returns (a: Answer)
      requires Wired()
      modifies store.server
      ensures (store.server.db, a) == StoreStep(old(store.server.db), cfg.prefix, e)
    {
      match e.call {
        case ConsumeCall(key, rule) =>
          var r := store.Consume(key, rule, e.now);
          return Consumed(r);
        case TakeCall(key, bucket) =>
          var r := store.Take(key, bucket, e.now);
          return Taken(r);
      }
    }

    /** `blockcache.Store.Consume` and `Take`, or the inner store where the cache is not enabled. */
    method Call(e: Event, fault: Fault) returns (a: Answer)
      requires Wired()
      modifies store.server, breaker, cache
      ensures (Value(), a) == StackStep(cfg, old(Value()), e, fault)
    {
      if cfg.cached && e.call.ConsumeCall? {
        var until := cache.Find(e.call.key.String(), e.now);
        if until.Some? {
          cache.Hit();
          return Consumed(Ok(Result(true, -1, until.value - e.now)));
        }
      }
      a := Inner(e, fault);
      if cfg.cached && Cacheable(a) {
        cache.Remember(e.call.key.String(), a.result.value.retryAfter, e.now);
      }
    }
  }

  // ---------------------------------------------------------------- transparency

  function Swept(entries: Entries, instants: seq<int>): Entries {
    if instants == [] then entries else Swept(SweepStep(entries, instants[0]), instants[1..])
  }

  /** The layers after the first n calls of a store run; sweeps may happen at any time in between. */
  function StackAt(cfg: Config, r: Run, sweeps: seq<seq<int>>, n: nat): Layers
    requires |sweeps| == |r.events| && n <= |r.events|
    decreases n, 0
  {
    if n == 0 then Layers(r.db, CLOSED, map[], 0)
    else StackStep(cfg, Before(cfg, r, sweeps, n - 1), r.events[n - 1], Healthy).0
  }

  /** The layers call n finds. */
  function Before(cfg: Config, r: Run, sweeps: seq<seq<int>>, n: nat): Layers
    requires |sweeps| == |r.events| && n < |r.events|
    decreases n, 1
  {
    var s := StackAt(cfg, r, sweeps, n);
    s.(entries := Swept(s.entries, sweeps[n]))
  }

  function StackAnswer(cfg: Config, r: Run, sweeps: seq<seq<int>>, n: nat): Answer
    requires |sweeps| == |r.events| && n < |r.events|
  {
    StackStep(cfg, Before(cfg, r, sweeps, n), r.events[n], Healthy).1
  }

  /** The block marker behind a cache entry lasts at least as long as the entry. */
  predicate Covers(block: Option<Entry>, until: int) {
    block.Some? && block.value.expiry.Some? && until <= block.value.expiry.value
  }

  ghost predicate Backed(entries: Entries, db: Db, prefix: string) {
    forall key: Key :: ValidName(key.limiter) && key.String() in entries ==>
                         Covers(CellOf(db, prefix, key).block, entries[key.String()])
  }

  lemma {:induction false} SweptSubset(entries: Entries, instants: seq<int>)
    ensures forall k :: k in Swept(entries, instants) ==> k in entries && Swept(entries, instants)[k] == entries[k]
  {
    if instants == [] {
    } else {
      SweptSubset(SweepStep(entries, instants[0]), instants[1..]);
    }
  }

  /** No call shortens a block: a marker is only rewritten once it has expired. */
  lemma BlocksOnlyGrow(db: Db, prefix: string, e: Event, key: Key, until: int)
    requires ValidName(e.call.key.limiter) && ValidName(key.limiter)
    requires Covers(CellOf(db, prefix, key).block, until)
    ensures Covers(CellOf(StoreStep(db, prefix, e).0, prefix, key).block, until)
  {
    StepFrame(db, prefix, e, key);
    if e.call.ConsumeCall? && SameStorage(e.call.key, key) && e.call.rule.Valid() {
      var rule := e.call.rule;
      assert CellOf(db, prefix, e.call.key) == CellOf(db, prefix, key);
      var (c, _) := DecideCell(CellOf(db, prefix, key), rule.limit, Rounded(rule.window), Rounded(rule.block), e.now);
      PutCellGet(db, prefix, e.call.key, c);
    }
  }

  lemma BackedStep(entries: Entries, db: Db, prefix: string, e: Event)
    requires Backed(entries, db, prefix) && ValidName(e.call.key.limiter)
    ensures Backed(entries, StoreStep(db, prefix, e).0, prefix)
  {
    forall key: Key | ValidName(key.limiter) && key.String() in entries
      ensures Covers(CellOf(StoreStep(db, prefix, e).0, prefix, key).block, entries[key.String()])
    {
      BlocksOnlyGrow(db, prefix, e, key, entries[key.String()]);
    }
  }

  /** A blocked answer leaves a marker that lasts exactly as long as the answer says. */
  lemma BlockedAnswerIsBacked(db: Db, prefix: string, e: Event)
    requires Cacheable(StoreStep(db, prefix, e).1)
    ensures
      var (db', a) := StoreStep(db, prefix, e);
      Covers(CellOf(db', prefix, e.call.key).block, e.now + a.result.value.retryAfter)
  {
    var rule := e.call.rule;
    var (c, _) := DecideCell(CellOf(db, prefix, e.call.key), rule.limit, Rounded(rule.window), Rounded(rule.block), e.now);
    PutCellGet(db, prefix, e.call.key, c);
  }

  lemma RememberBacked(entries: Entries, db: Db, prefix: string, key: Key, ttl: int, cfg: Config, now: int)
    requires Backed(entries, db, prefix) && ValidName(key.limiter)
    requires Covers(CellOf(db, prefix, key).block, now + ttl)
    ensures Backed(RememberStep(entries, key.String(), ttl, cfg.maxLen, cfg.maxTTL, now), db, prefix)
  {
    var after := RememberStep(entries, key.String(), ttl, cfg.maxLen, cfg.maxTTL, now);
    forall l: Key | ValidName(l.limiter) && l.String() in after
      ensures Covers(CellOf(db, prefix, l).block, after[l.String()])
    {
      KeyStringInjective(key, l);
    }
  }

  /** What the plain store would answer to a cache hit. */
  lemma HitAnswer(db: Db, prefix: string, e: Event, until: int)
    requires e.call.ConsumeCall? && e.call.rule.Valid() && e.now < until
    requires Covers(CellOf(db, prefix, e.call.key).block, until)
    ensures
      var (db', a) := StoreStep(db, prefix, e);
      && db' == db
      && a.Consumed? && a.result.Ok?
      && a.result.value.blocked && a.result.value.count == -1
      && 0 < until - e.now <= a.result.value.retryAfter
  {
    PutCellGet(db, prefix, e.call.key, CellOf(db, prefix, e.call.key));
  }

  /** Agreement up to the cap on the wait. */
  predicate SameVerdict(cached: Answer, plain: Answer) {
    match (cached, plain)
    case (Consumed(Ok(c)), Consumed(Ok(p))) =>
      && c.blocked == p.blocked && c.count == p.count
      && (c.retryAfter == p.retryAfter || (c.blocked && 0 < c.retryAfter <= p.retryAfter))
    case _ => cached == plain
  }

  /** Calls the engine makes: a valid rule or bucket on a validated limiter name. */
  predicate ValidCall(call: Call) {
    ValidName(call.key.limiter) && if call.ConsumeCall? then call.rule.Valid() else call.bucket.Valid()
  }

  predicate ValidCalls(r: Run) {
    r.Valid() && forall i :: 0 <= i < |r.events| ==> ValidCall(r.events[i].call)
  }

  /** No key holds a value of another kind. */
  ghost predicate Typed(db: Db, prefix: string) {
    forall key: Key :: ValidName(key.limiter) ==> KeyTyped(db, prefix, key)
  }

  predicate KeyTyped(db: Db, prefix: string, key: Key) {
    var c, e := CellOf(db, prefix, key), BucketOf(db, prefix, key);
    (c.counter.Some? ==> c.counter.value.value.Count?) && (e.Some? ==> e.value.value.Hash?)
  }

  lemma KeyStaysTyped(db: Db, prefix: string, e: Event, key: Key)
    requires KeyTyped(db, prefix, key) && ValidName(e.call.key.limiter) && ValidName(key.limiter)
    ensures KeyTyped(StoreStep(db, prefix, e).0, prefix, key)
  {
    var r := Run(prefix, db, [e]);
    assert r.State(1) == StoreStep(r.State(0), prefix, e).0;
    CellStep(r, 0, key);
    BucketStep(r, 0, key);
    hide Run.State, Run.Answer, Level, IdleSpan, Live, Ttl;
  }

  lemma TypedStep(db: Db, prefix: string, e: Event)
    requires Typed(db, prefix) && ValidCall(e.call)
    ensures Typed(StoreStep(db, prefix, e).0, prefix)
    ensures Succeeded(StoreStep(db, prefix, e).1)
  {
    assert KeyTyped(db, prefix, e.call.key);
    forall key: Key | ValidName(key.limiter) ensures KeyTyped(StoreStep(db, prefix, e).0, prefix, key) {
      KeyStaysTyped(db, prefix, e, key);
    }
  }

  lemma NothingTyped(prefix: string)
    ensures Typed(map[], prefix)
  {
  }

  /** The entry the script works on is live and of another kind. */
  predicate Mistyped(db: Db, prefix: string, e: Event) {
    match e.call
    case ConsumeCall(key, _) =>
      var c := CellOf(db, prefix, key);
      Ttl(c.block, e.now) <= 0 && Live(c.counter, e.now) && !c.counter.value.value.Count?
    case TakeCall(key, _) =>
      var b := BucketOf(db, prefix, key);
      Live(b, e.now) && !b.value.value.Hash?
  }

  /** The store errs exactly on an invalid rule or bucket and on a value of the wrong kind, and then changes nothing. */
  lemma ErrsExactly(db: Db, prefix: string, e: Event)
    ensures
      var (db', a) := StoreStep(db, prefix, e);
      var invalid := if e.call.ConsumeCall? then !e.call.rule.Valid() else !e.call.bucket.Valid();
      && (!Succeeded(a) <==> invalid || Mistyped(db, prefix, e))
      && (!Succeeded(a) ==> db' == db && a == Failed(e.call))
  {
    PutCellGet(db, prefix, e.call.key, CellOf(db, prefix, e.call.key));
    PutGet(db, BucketKey(prefix, e.call.key));
  }

  lemma {:induction false} TypedAt(r: Run, n: nat)
    requires ValidCalls(r) && r.db == map[] && n <= |r.events|
    ensures Typed(r.State(n), r.prefix)
  {
    NothingTyped(r.prefix);
    hide StoreStep, Typed, ValidCall;
    if n == 0 {
    } else {
      TypedAt(r, n - 1);
      TypedStep(r.State(n - 1), r.prefix, r.events[n - 1]);
    }
  }

  /** A store that starts empty never errs on a valid call. */
  lemma AnswersSucceed(r: Run, n: nat)
    requires ValidCalls(r) && r.db == map[] && n < |r.events|
    ensures Succeeded(r.Answer(n))
  {
    hide StoreStep, Typed, ValidCall, Run.State;
    TypedAt(r, n);
    TypedStep(r.State(n), r.prefix, r.events[n]);
  }

  lemma StackInvariantStep(cfg: Config, s: Layers, e: Event)
    requires s.circuit == CLOSED && Backed(s.entries, s.db, cfg.prefix) && ValidCall(e.call)
    requires Succeeded(StoreStep(s.db, cfg.prefix, e).1)
    ensures
      var (s', a) := StackStep(cfg, s, e, Healthy);
      var (db, plain) := StoreStep(s.db, cfg.prefix, e);
      && s'.db == db && s'.circuit == CLOSED && Backed(s'.entries, db, cfg.prefix)
      && SameVerdict(a, plain)
      && (CacheHit(cfg, s, e).None? ==> a == plain)
  {
    var hit := CacheHit(cfg, s, e);
    if hit.Some? {
      HitAnswer(s.db, cfg.prefix, e, hit.value);
    } else {
      hide StoreStep, Backed;
      var (db, a) := StoreStep(s.db, cfg.prefix, e);
      BackedStep(s.entries, s.db, cfg.prefix, e);
      assert InnerStep(cfg, s, e, Healthy) == (s.(db := db), a);
      if cfg.cached && Cacheable(a) {
        BlockedAnswerIsBacked(s.db, cfg.prefix, e);
        AnswerKind(s.db, cfg.prefix, e);
        RememberBacked(s.entries, db, cfg.prefix, e.call.key, a.result.value.retryAfter, cfg, e.now);
      }
    }
  }

  lemma AnswerKind(db: Db, prefix: string, e: Event)
    ensures StoreStep(db, prefix, e).1.Consumed? <==> e.call.ConsumeCall?
  {
  }

  lemma {:induction false} StackInvariant(cfg: Config, r: Run, sweeps: seq<seq<int>>, n: nat)
    requires ValidCalls(r) && r.db == map[] && cfg.prefix == r.prefix && |sweeps| == |r.events| && n <= |r.events|
    ensures
      var s := StackAt(cfg, r, sweeps, n);
      s.db == r.State(n) && s.circuit == CLOSED && Backed(s.entries, s.db, cfg.prefix)
  {
    if n == 0 {
    } else {
      hide StackStep, StoreStep, SweepStep;
      StackInvariant(cfg, r, sweeps, n - 1);
      var s := StackAt(cfg, r, sweeps, n - 1);
      SweptSubset(s.entries, sweeps[n - 1]);
      assert Backed(Before(cfg, r, sweeps, n - 1).entries, s.db, cfg.prefix);
      AnswersSucceed(r, n - 1);
      StackInvariantStep(cfg, Before(cfg, r, sweeps, n - 1), r.events[n - 1]);
    }
  }

  /**
   * Transparency: with any capacity, any cap on the trust, any breaker settings and sweeps at any
   * time, every call of every run gets the plain store's verdict and count and leaves the plain
   * store's keyspace; a hit's wait is positive and never longer than the block really has to run.
   */
  lemma CacheTransparent(cfg: Config, r: Run, sweeps: seq<seq<int>>, n: nat)
    requires ValidCalls(r) && r.db == map[] && cfg.prefix == r.prefix && |sweeps| == |r.events| && n < |r.events|
    ensures StackAt(cfg, r, sweeps, n + 1).db == r.State(n + 1)
    ensures SameVerdict(StackAnswer(cfg, r, sweeps, n), r.Answer(n))
  {
    StackInvariant(cfg, r, sweeps, n);
    StackInvariant(cfg, r, sweeps, n + 1);
    var s := StackAt(cfg, r, sweeps, n);
    SweptSubset(s.entries, sweeps[n]);
    assert Backed(Before(cfg, r, sweeps, n).entries, s.db, cfg.prefix);
    AnswersSucceed(r, n);
    StackInvariantStep(cfg, Before(cfg, r, sweeps, n), r.events[n]);
  }

  // ---------------------------------------------------------------- sweeps and hits

  /** No sweep is ahead of the call it precedes. */
  predicate Timely(r: Run, sweeps: seq<seq<int>>) {
    && r.Valid() && |sweeps| == |r.events|
    && forall i, j :: 0 <= i < |sweeps| && 0 <= j < |sweeps[i]| ==> sweeps[i][j] <= r.Time(i)
  }

  function NoSweeps(n: nat): seq<seq<int>> {
    seq(n, _ => [])
  }

  lemma {:induction false} SweptUnseen(entries: Entries, instants: seq<int>, now: int)
    requires forall j :: 0 <= j < |instants| ==> instants[j] <= now
    ensures SameLookups(Swept(entries, instants), entries, now)
  {
    if instants == [] {
    } else {
      SweepUnseen(entries, instants[0]);
      SweptUnseen(SweepStep(entries, instants[0]), instants[1..], now);
      hide Lookup, SweepStep;
    }
  }

  /** One call on two stacks whose caches find the same: the same answer, and such stacks again. */
  lemma SameLookupsCall(cfg: Config, s: Layers, s': Layers, e: Event, fault: Fault)
    requires cfg.maxLen <= 0 && s' == s.(entries := s'.entries) && SameLookups(s.entries, s'.entries, e.now)
    ensures
      var (t, a), (t', a') := StackStep(cfg, s, e, fault), StackStep(cfg, s', e, fault);
      a == a' && t' == t.(entries := t'.entries) && SameLookups(t.entries, t'.entries, e.now)
  {
    hide InnerStep, Cacheable, Lookup;
    assert CacheHit(cfg, s, e) == CacheHit(cfg, s', e);
    if CacheHit(cfg, s, e).None? {
      InnerKeepsEntries(cfg, s, s', e, fault);
      var a := InnerStep(cfg, s, e, fault).1;
      if cfg.cached && Cacheable(a) {
        AnswerWait(a);
        RememberSameLookups(s.entries, s'.entries, e.call.key.String(), a.result.value.retryAfter, cfg, e.now);
      }
    }
  }

  lemma AnswerWait(a: Answer)
    requires Cacheable(a)
    ensures a.Consumed? && a.result.Ok?
  {
  }

  lemma InnerKeepsEntries(cfg: Config, s: Layers, s': Layers, e: Event, fault: Fault)
    requires s' == s.(entries := s'.entries)
    ensures
      var (t, a), (t', a') := InnerStep(cfg, s, e, fault), InnerStep(cfg, s', e, fault);
      a == a' && t.entries == s.entries && t' == t.(entries := s'.entries)
  {
    hide StoreStep;
  }

  lemma RememberSameLookups(entries: Entries, entries': Entries, k: string, ttl: int, cfg: Config, now: int)
    requires cfg.maxLen <= 0 && SameLookups(entries, entries', now)
    ensures SameLookups(RememberStep(entries, k, ttl, cfg.maxLen, cfg.maxTTL, now),
                        RememberStep(entries', k, ttl, cfg.maxLen, cfg.maxTTL, now), now)
  {
    var x, x' := RememberStep(entries, k, ttl, cfg.maxLen, cfg.maxTTL, now), RememberStep(entries', k, ttl, cfg.maxLen, cfg.maxTTL, now);
    forall l, t | now <= t ensures Lookup(x, l, t) == Lookup(x', l, t) {
      assert Lookup(entries, l, t) == Lookup(entries', l, t);
    }
  }

  lemma SameLookupsLater(entries: Entries, entries': Entries, last: int, now: int)
    requires SameLookups(entries, entries', last) && last <= now
    ensures SameLookups(entries, entries', now)
  {
    hide Lookup;
  }

  lemma SameLookupsTransitive(x: Entries, y: Entries, z: Entries, now: int)
    requires SameLookups(x, y, now) && SameLookups(y, z, now)
    ensures SameLookups(x, z, now)
  {
    hide Lookup;
  }

  lemma {:induction false} SweepsUnseenAt(cfg: Config, r: Run, sweeps: seq<seq<int>>, n: nat, now: int)
    requires cfg.maxLen <= 0 && Timely(r, sweeps) && n <= |r.events| && (n > 0 ==> r.Time(n - 1) <= now)
    ensures
      var s, s' := StackAt(cfg, r, sweeps, n), StackAt(cfg, r, NoSweeps(|r.events|), n);
      s' == s.(entries := s'.entries) && SameLookups(s.entries, s'.entries, now)
    decreases n
  {
    if n == 0 {
    } else {
      var past := r.Time(n - 1);
      SweepsUnseenAt(cfg, r, sweeps, n - 1, past);
      SweepsUnseenBefore(cfg, r, sweeps, n - 1);
      hide StackStep, SameLookups;
      var s, s' := Before(cfg, r, sweeps, n - 1), Before(cfg, r, NoSweeps(|r.events|), n - 1);
      SameLookupsCall(cfg, s, s', r.events[n - 1], Healthy);
      SameLookupsLater(StackAt(cfg, r, sweeps, n).entries, StackAt(cfg, r, NoSweeps(|r.events|), n).entries, past, now);
    }
  }

  /** What call n finds, given the layers after the calls before it. */
  lemma SweepsUnseenBefore(cfg: Config, r: Run, sweeps: seq<seq<int>>, n: nat)
    requires Timely(r, sweeps) && n < |r.events|
    requires
      var s, s' := StackAt(cfg, r, sweeps, n), StackAt(cfg, r, NoSweeps(|r.events|), n);
      s' == s.(entries := s'.entries) && SameLookups(s.entries, s'.entries, r.Time(n))
    ensures
      var s, s' := Before(cfg, r, sweeps, n), Before(cfg, r, NoSweeps(|r.events|), n);
      s' == s.(entries := s'.entries) && SameLookups(s.entries, s'.entries, r.Time(n))
  {
    hide SameLookups, StackAt, SweepStep;
    var s, s' := StackAt(cfg, r, sweeps, n), StackAt(cfg, r, NoSweeps(|r.events|), n);
    SweptUnseen(s.entries, sweeps[n], r.Time(n));
    SameLookupsTransitive(Swept(s.entries, sweeps[n]), s.entries, s'.entries, r.Time(n));
  }

  /**
   * Sweeps are housekeeping: with an unbounded cache, whatever is swept and whenever, every call of
   * every run gets the answer, and leaves the keyspace, the circuit and the number of hits, that it
   * would without any sweep.
   */
  lemma SweepsUnseen(cfg: Config, r: Run, sweeps: seq<seq<int>>, n: nat)
    requires cfg.maxLen <= 0 && Timely(r, sweeps) && n < |r.events|
    ensures StackAnswer(cfg, r, sweeps, n) == StackAnswer(cfg, r, NoSweeps(|r.events|), n)
    ensures
      var s, s' := StackAt(cfg, r, sweeps, n + 1), StackAt(cfg, r, NoSweeps(|r.events|), n + 1);
      s.db == s'.db && s.circuit == s'.circuit && s.hits == s'.hits
  {
    hide StackStep, StackAt;
    SweepsUnseenAt(cfg, r, sweeps, n, r.Time(n));
    SweepsUnseenAt(cfg, r, sweeps, n + 1, r.Time(n));
    SweepsUnseenBefore(cfg, r, sweeps, n);
    SameLookupsCall(cfg, Before(cfg, r, sweeps, n), Before(cfg, r, NoSweeps(|r.events|), n), r.events[n], Healthy);
  }

  /** Call n never got as far as the breaker. */
  predicate FromCache(cfg: Config, r: Run, sweeps: seq<seq<int>>, n: nat)
    requires |sweeps| == |r.events| && n < |r.events|
  {
    cfg.cached && r.events[n].call.ConsumeCall? &&
    Lookup(Before(cfg, r, sweeps, n).entries, r.events[n].call.key.String(), r.Time(n)).Some?
  }

  function CacheHits(cfg: Config, r: Run, sweeps: seq<seq<int>>, n: nat): nat
    requires |sweeps| == |r.events| && n <= |r.events|
  {
    if n == 0 then 0 else CacheHits(cfg, r, sweeps, n - 1) + if FromCache(cfg, r, sweeps, n - 1) then 1 else 0
  }

  /** The hit counter is the number of calls that were answered from the cache. */
  lemma {:induction false} HitsCounted(cfg: Config, r: Run, sweeps: seq<seq<int>>, n: nat)
    requires |sweeps| == |r.events| && n <= |r.events|
    ensures StackAt(cfg, r, sweeps, n).hits == CacheHits(cfg, r, sweeps, n)
  {
    if n == 0 {
    } else {
      HitsCounted(cfg, r, sweeps, n - 1);
      HitsStep(cfg, Before(cfg, r, sweeps, n - 1), r.events[n - 1]);
      hide StackStep;
    }
  }

  lemma HitsStep(cfg: Config, s: Layers, e: Event)
    ensures StackStep(cfg, s, e, Healthy).0.hits ==
            s.hits + if cfg.cached && e.call.ConsumeCall? && Lookup(s.entries, e.call.key.String(), e.now).Some? then 1 else 0
  {
    hide StoreStep;
  }

  /** Validity matters: an invalid rule is refused by the store, and by the stack exactly when the cache misses. */
  lemma InvalidRuleNeedsMiss(cfg: Config, s: Layers, e: Event)
    requires s.circuit == CLOSED && e.call.ConsumeCall? && !e.call.rule.Valid()
    ensures StackStep(cfg, s, e, Healthy).1 == StoreStep(s.db, cfg.prefix, e).1 <==> CacheHit(cfg, s, e).None?
  {
  }

  // ---------------------------------------------------------------- under faults

  /** The call was told to stop: blocked, or no token left. */
  predicate Refused(a: Answer) {
    match a
    case Consumed(r) => r.Ok? && r.value.blocked
    case Taken(r) => r.Ok? && !r.value.allowed
  }

  /** Lost requests, lost replies and open circuits do not unsettle the cache either. */
  lemma BackedUnderFaults(cfg: Config, s: Layers, e: Event, fault: Fault)
    requires Backed(s.entries, s.db, cfg.prefix) && ValidCall(e.call)
    ensures
      var s' := StackStep(cfg, s, e, fault).0;
      Backed(s'.entries, s'.db, cfg.prefix)
  {
    hide StoreStep, Backed;
    BackedStep(s.entries, s.db, cfg.prefix, e);
    AnswerKind(s.db, cfg.prefix, e);
    var (s', a) := InnerStep(cfg, s, e, fault);
    if CacheHit(cfg, s, e).None? && cfg.cached && Cacheable(a) {
      assert (s'.db, a) == StoreStep(s.db, cfg.prefix, e);
      BlockedAnswerIsBacked(s.db, cfg.prefix, e);
      RememberBacked(s.entries, s'.db, cfg.prefix, e.call.key, a.result.value.retryAfter, cfg, e.now);
    }
  }

  /** A refusal is never made up: the store itself would refuse the same call at the same instant. */
  lemma RefusalIsTrue(cfg: Config, s: Layers, e: Event, fault: Fault)
    requires Backed(s.entries, s.db, cfg.prefix) && ValidCall(e.call)
    requires Refused(StackStep(cfg, s, e, fault).1)
    ensures Refused(StoreStep(s.db, cfg.prefix, e).1)
  {
    var hit := CacheHit(cfg, s, e);
    if hit.Some? {
      HitAnswer(s.db, cfg.prefix, e, hit.value);
    } else {
      hide StoreStep;
      assert !Refused(Failed(e.call));
    }
  }
}
