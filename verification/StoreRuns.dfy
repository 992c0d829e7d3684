/**
 * Whole runs of the store: any sequence of calls, on any keys, from any replicas, each executed as
 * one atomic step at a store instant. `State(n)` is the keyspace after the first n calls.
 */
module StoreRuns {
  import opened Prelude
  import opened Store
  import opened StorageKeys
  import opened Redis

  datatype Call = ConsumeCall(key: Key, rule: Rule) | TakeCall(key: Key, bucket: Bucket)

  datatype Event = Event(now: int, call: Call)

  datatype Answer = Consumed(result: Outcome<Result>) | Taken(take: Outcome<TakeResult>)

  function StoreStep(db: Db, prefix: string, e: Event): (Db, Answer) {
    match e.call
    case ConsumeCall(key, rule) =>
      var (db', r) := ConsumeStep(db, prefix, key, rule, e.now);
      (db', Consumed(r))
    case TakeCall(key, bucket) =>
      var (db', r) := TakeStep(db, prefix, key, bucket, e.now);
      (db', Taken(r))
  }

  datatype Run = Run(prefix: string, db: Db, events: seq<Event>) {
    function State(n: nat): Db
      requires n <= |events|
    {
      if n == 0 then db else StoreStep(State(n - 1), prefix, events[n - 1]).0
    }

    function Answer(n: nat): Answer
      requires n < |events|
    {
      StoreStep(State(n), prefix, events[n]).1
    }

    function Time(n: nat): int
      requires n < |events|
    {
      events[n].now
    }

    /** Validated limiter names, and a store clock that never steps back. */
    predicate Valid() {
      && (forall i :: 0 <= i < |events| ==> ValidName(events[i].call.key.limiter))
      && (forall i, j :: 0 <= i <= j < |events| ==> events[i].now <= events[j].now)
    }

    predicate ConsumesAt(n: nat, key: Key)
      requires n < |events|
    {
      events[n].call.ConsumeCall? && SameStorage(events[n].call.key, key)
    }

    predicate TakesAt(n: nat, key: Key)
      requires n < |events|
    {
      events[n].call.TakeCall? && SameStorage(events[n].call.key, key)
    }

    function CellAt(n: nat, key: Key): Cell
      requires n <= |events|
    {
      CellOf(State(n), prefix, key)
    }

    function BucketAt(n: nat, key: Key): Option<Entry>
      requires n <= |events|
    {
      BucketOf(State(n), prefix, key)
    }
  }

  /** A call leaves every storage key but its own alone. */
  lemma StepFrame(db: Db, prefix: string, e: Event, key: Key)
    requires ValidName(e.call.key.limiter) && ValidName(key.limiter)
    ensures !(e.call.ConsumeCall? && SameStorage(e.call.key, key)) ==>
              CellOf(StoreStep(db, prefix, e).0, prefix, key) == CellOf(db, prefix, key)
    ensures !(e.call.TakeCall? && SameStorage(e.call.key, key)) ==>
              BucketOf(StoreStep(db, prefix, e).0, prefix, key) == BucketOf(db, prefix, key)
  {
    var k := e.call.key;
    StorageKeyInjective(prefix, k, Counter, key, Counter);
    StorageKeyInjective(prefix, k, Counter, key, Block);
    StorageKeyInjective(prefix, k, Counter, key, Tokens);
    StorageKeyInjective(prefix, k, Block, key, Counter);
    StorageKeyInjective(prefix, k, Block, key, Block);
    StorageKeyInjective(prefix, k, Block, key, Tokens);
    StorageKeyInjective(prefix, k, Tokens, key, Counter);
    StorageKeyInjective(prefix, k, Tokens, key, Block);
    StorageKeyInjective(prefix, k, Tokens, key, Tokens);
  }

  /** What one call does to the cell of a key: nothing, or the script. */
  lemma CellStep(r: Run, n: nat, key: Key)
    requires r.Valid() && ValidName(key.limiter) && n < |r.events|
    ensures !r.ConsumesAt(n, key) ==> r.CellAt(n + 1, key) == r.CellAt(n, key)
    ensures r.ConsumesAt(n, key) && !r.events[n].call.rule.Valid() ==>
              r.CellAt(n + 1, key) == r.CellAt(n, key) && r.Answer(n) == Consumed(Err)
    ensures r.ConsumesAt(n, key) && r.events[n].call.rule.Valid() ==>
              var rule := r.events[n].call.rule;
              var (c, answer) := DecideCell(r.CellAt(n, key), rule.limit, Rounded(rule.window), Rounded(rule.block), r.Time(n));
              r.CellAt(n + 1, key) == c && r.Answer(n) == Consumed(answer)
  {
    var e := r.events[n];
    StepFrame(r.State(n), r.prefix, e, key);
    if r.ConsumesAt(n, key) && e.call.rule.Valid() {
      assert CellOf(r.State(n), r.prefix, e.call.key) == r.CellAt(n, key);
      var (c, answer) := DecideCell(r.CellAt(n, key), e.call.rule.limit, Rounded(e.call.rule.window),
                                    Rounded(e.call.rule.block), e.now);
      PutCellGet(r.State(n), r.prefix, e.call.key, c);
    }
  }

  /** What one call does to the token bucket of a key. */
  lemma BucketStep(r: Run, n: nat, key: Key)
    requires r.Valid() && ValidName(key.limiter) && n < |r.events|
    ensures !r.TakesAt(n, key) ==> r.BucketAt(n + 1, key) == r.BucketAt(n, key)
    ensures r.TakesAt(n, key) && !r.events[n].call.bucket.Valid() ==>
              r.BucketAt(n + 1, key) == r.BucketAt(n, key) && r.Answer(n) == Taken(Err)
    ensures r.TakesAt(n, key) && r.events[n].call.bucket.Valid() ==>
              var (e, answer) := TakeCell(r.BucketAt(n, key), r.events[n].call.bucket, r.Time(n));
              r.BucketAt(n + 1, key) == e && r.Answer(n) == Taken(answer)
  {
    StepFrame(r.State(n), r.prefix, r.events[n], key);
    if r.TakesAt(n, key) {
      assert BucketOf(r.State(n), r.prefix, r.events[n].call.key) == r.BucketAt(n, key);
    }
  }
}
