/**
 * The Redis server and the two scripts of `redisstore.go`.
 *
 * The server is one keyspace whose entries may carry an expiry; an entry whose expiry has passed is
 * gone. A script is one atomic step. `DecideCell` and `TakeCell` are the scripts as functions of the
 * entries they touch; the methods of `Server` run them command by command on the keyspace.
 */
module Redis {
  import opened Prelude
  import opened Store
  import opened StorageKeys

  /** `Hash` is the token bucket: thousandths of a token, and the millisecond they were counted at. */
  datatype Value = Count(n: int) | Marker | Hash(milli: int, at: int)

  datatype Entry = Entry(value: Value, expiry: Option<int>)

  type Db = map<string, Entry>

  predicate Live(e: Option<Entry>, now: int) {
    e.Some? && (e.value.expiry.Some? ==> now < e.value.expiry.value)
  }

  /** The remaining life of a key: -2 when gone, -1 when it never expires. */
  function Ttl(e: Option<Entry>, now: int): int {
    if !Live(e, now) then -2
    else if e.value.expiry.None? then -1
    else e.value.expiry.value - now
  }

  /** Whole seconds, rounded up, never zero. */
  function Seconds(d: int): (s: int)
    ensures s >= 1
    ensures d > 0 ==> (s - 1) * SECOND < d <= s * SECOND
    ensures d <= 0 ==> s == 1
  {
    if d <= 0 then 1 else CeilDiv(d, SECOND)
  }

  /** The duration that reaches the script. */
  function Rounded(d: int): (r: int)
    ensures r >= SECOND && r % SECOND == 0 && r >= d
    ensures d > 0 && d % SECOND == 0 ==> r == d
  {
    Seconds(d) * SECOND
  }

  /** The counter and block entries that one `decide` call reads and writes. */
  datatype Cell = Cell(counter: Option<Entry>, block: Option<Entry>)

  function DecideCell(c: Cell, limit: int, window: int, block: int, now: int): (Cell, Outcome<Result>) {
    var ttl := Ttl(c.block, now);
    if ttl > 0 then
      (c, Ok(Result(true, -1, ttl)))
    else if Live(c.counter, now) && !c.counter.value.value.Count? then
      (c, Err)
    else
      var count := if Live(c.counter, now) then c.counter.value.value.n + 1 else 1;
      var expiry := if count == 1 then Some(now + window) else c.counter.value.expiry;
      if count > limit then
        (Cell(None, Some(Entry(Marker, Some(now + block)))), Ok(Result(true, count, block)))
      else
        (Cell(Some(Entry(Count(count), expiry)), c.block), Ok(Result(false, count, 0)))
  }

  /** The tokens, in thousandths, that a take at `now` finds after refilling. */
  function Level(e: Option<Entry>, b: Bucket, now: int): int {
    if Live(e, now) && e.value.value.Hash? then
      Min(1000 * b.burst, e.value.value.milli + Max(0, now / MILLISECOND - e.value.value.at) * b.rate)
    else
      1000 * b.burst
  }

  /** The idle time, in milliseconds, after which a bucket key is dropped. */
  function IdleSpan(b: Bucket): int
    requires b.Valid()
  {
    CeilDiv(1000 * b.burst, b.rate) + 10000
  }

  function TakeCell(e: Option<Entry>, b: Bucket, now: int): (Option<Entry>, Outcome<TakeResult>)
    requires b.Valid()
  {
    if Live(e, now) && !e.value.value.Hash? then
      (e, Err)
    else
      var level := Level(e, b, now);
      var left := if level >= 1000 then level - 1000 else level;
      var retry := if level >= 1000 then 0 else CeilDiv(1000 - level, b.rate);
      (Some(Entry(Hash(left, now / MILLISECOND), Some(now + IdleSpan(b) * MILLISECOND))),
       Ok(TakeResult(level >= 1000, left / 1000, retry * MILLISECOND)))
  }

  function CellOf(db: Db, prefix: string, key: Key): Cell {
    Cell(Get(db, CounterKey(prefix, key)), Get(db, BlockKey(prefix, key)))
  }

  function BucketOf(db: Db, prefix: string, key: Key): Option<Entry> {
    Get(db, BucketKey(prefix, key))
  }

  function PutCell(db: Db, prefix: string, key: Key, c: Cell): Db {
    Put(Put(db, BlockKey(prefix, key), c.block), CounterKey(prefix, key), c.counter)
  }

  /** `Store.Consume` as a function of the keyspace. */
  function ConsumeStep(db: Db, prefix: string, key: Key, rule: Rule, now: int): (Db, Outcome<Result>) {
    if !rule.Valid() then (db, Err)
    else
      var (c, r) := DecideCell(CellOf(db, prefix, key), rule.limit, Rounded(rule.window), Rounded(rule.block), now);
      (PutCell(db, prefix, key, c), r)
  }

  /** `Store.Take` as a function of the keyspace. */
  function TakeStep(db: Db, prefix: string, key: Key, bucket: Bucket, now: int): (Db, Outcome<TakeResult>) {
    if !bucket.Valid() then (db, Err)
    else
      var (e, r) := TakeCell(BucketOf(db, prefix, key), bucket, now);
      (Put(db, BucketKey(prefix, key), e), r)
  }

  class Server {
    var db: Db

    constructor ()
      ensures db == map[]
    {
      db := map[];
    }

    method TTL(k: string, now: int) returns (ttl: int)
      ensures ttl == Ttl(Get(db, k), now)
    {
      if k !in db || (db[k].expiry.Some? && now >= db[k].expiry.value) {
        ttl := -2;
      } else if db[k].expiry.None? {
        ttl := -1;
      } else {
        ttl := db[k].expiry.value - now;
      }
    }

    /** Creates the counter without an expiry, or increments it and leaves its expiry alone. */
    method INCR(k: string, now: int) returns (r: Outcome<int>)
      modifies this
      ensures Live(Get(old(db), k), now) && !old(db)[k].value.Count? ==> r == Err && db == old(db)
      ensures Live(Get(old(db), k), now) && old(db)[k].value.Count? ==>
                r == Ok(old(db)[k].value.n + 1) && db == old(db)[k := Entry(Count(r.value), old(db)[k].expiry)]
      ensures !Live(Get(old(db), k), now) ==> r == Ok(1) && db == old(db)[k := Entry(Count(1), None)]
    {
      if Live(Get(db, k), now) {
        match db[k].value {
          case Count(n) =>
            db := db[k := db[k].(value := Count(n + 1))];
            r := Ok(n + 1);
          case _ =>
            r := Err;
        }
      } else {
        db := db[k := Entry(Count(1), None)];
        r := Ok(1);
      }
    }

    /** EXPIRE and PEXPIRE: no effect on a key that is gone. */
    method Expire(k: string, life: int, now: int)
      modifies this
      ensures db == if Live(Get(old(db), k), now) then old(db)[k := old(db)[k].(expiry := Some(now + life))] else old(db)
    {
      if Live(Get(db, k), now) {
        db := db[k := db[k].(expiry := Some(now + life))];
      }
    }

    method SETEX(k: string, life: int, now: int)
      modifies this
      ensures db == old(db)[k := Entry(Marker, Some(now + life))]
    {
      db := db[k := Entry(Marker, Some(now + life))];
    }

    method DEL(k: string)
      modifies this
      ensures db == old(db) - {k}
    {
      db := db - {k};
    }

    method HSET(k: string, milli: int, at: int, now: int)
      modifies this
      ensures db == old(db)[k := Entry(Hash(milli, at), if Live(Get(old(db), k), now) then old(db)[k].expiry else None)]
    {
      db := db[k := Entry(Hash(milli, at), if Live(Get(db, k), now) then db[k].expiry else None)];
    }

    /** The `decide` script: TTL, INCR, EXPIRE, and on excess SET and DEL. */
    method Decide(counter: string, marker: string, limit: int, window: int, block: int, now: int)
      returns (r: Outcome<Result>)
      requires counter != marker && window > 0 && block > 0
      modifies this
      ensures
        var (c, answer) := DecideCell(Cell(Get(old(db), counter), Get(old(db), marker)), limit, window, block, now);
        r == answer && db == Put(Put(old(db), marker, c.block), counter, c.counter)
    {
      PutGet(db, marker);
      PutGet(db, counter);
      var ttl := TTL(marker, now);
      if ttl > 0 {
        return Ok(Result(true, -1, ttl));
      }
      var count := INCR(counter, now);
      if count.Err? {
        return Err;
      }
      if count.value == 1 {
        Expire(counter, window, now);
      }
      if count.value > limit {
        SETEX(marker, block, now);
        DEL(counter);
        assert db == old(db)[marker := Entry(Marker, Some(now + block))] - {counter};
        return Ok(Result(true, count.value, block));
      }
      return Ok(Result(false, count.value, 0));
    }

    /** The `take` script: read, refill, take or compute the wait, write back, set the expiry. */
    method TakeToken(k: string, bucket: Bucket, now: int) returns (r: Outcome<TakeResult>)
      requires bucket.Valid()
      modifies this
      ensures
        var (e, answer) := TakeCell(Get(old(db), k), bucket, now);
        r == answer && db == Put(old(db), k, e)
    {
      var ms := now / MILLISECOND;
      var milli, at := 1000 * bucket.burst, ms;
      if Live(Get(db, k), now) {
        match db[k].value {
          case Hash(m, t) => milli, at := m, t;
          case _ => return Err;
        }
      }
      var elapsed := ms - at;
      if elapsed < 0 {
        elapsed := 0;
      }
      milli := Min(1000 * bucket.burst, milli + elapsed * bucket.rate);
      var allowed, retryMs := false, 0;
      if milli >= 1000 {
        milli := milli - 1000;
        allowed := true;
      } else {
        retryMs := CeilDiv(1000 - milli, bucket.rate);
      }
      HSET(k, milli, ms, now);
      Expire(k, IdleSpan(bucket) * MILLISECOND, now);
      return Ok(TakeResult(allowed, milli / 1000, retryMs * MILLISECOND));
    }
  }

  class RedisStore {
    const server: Server
    const prefix: string

    constructor (server: Server, prefix: string)
      ensures this.server == server && this.prefix == prefix
    {
      this.server := server;
      this.prefix := prefix;
    }

    method Consume(key: Key, rule: Rule, now: int) returns (r: Outcome<Result>)
      modifies server
      ensures (server.db, r) == ConsumeStep(old(server.db), prefix, key, rule, now)
    {
      if !rule.Valid() {
        return Err;
      }
      var base := Base(prefix, key);
      KindKeysDiffer(prefix, key);
      r := server.Decide(base + ":c", base + ":b", rule.limit, Rounded(rule.window), Rounded(rule.block), now);
    }

    method Take(key: Key, bucket: Bucket, now: int) returns (r: Outcome<TakeResult>)
      modifies server
      ensures (server.db, r) == TakeStep(old(server.db), prefix, key, bucket, now)
    {
      if !bucket.Valid() {
        return Err;
      }
      r := server.TakeToken(Base(prefix, key) + ":tb", bucket, now);
    }
  }

  lemma KindKeysDiffer(prefix: string, key: Key)
    ensures CounterKey(prefix, key) != BlockKey(prefix, key)
    ensures CounterKey(prefix, key) != BucketKey(prefix, key)
    ensures BlockKey(prefix, key) != BucketKey(prefix, key)
  {
    var base := Base(prefix, key);
    SuffixOfConcat(base, ":c");
    SuffixOfConcat(base, ":b");
    SuffixOfConcat(base, ":tb");
    KindsDisjoint(base + ":c");
    KindsDisjoint(base + ":b");
  }

  /** Writing a cell back changes nothing but that cell. */
  lemma PutCellGet(db: Db, prefix: string, key: Key, c: Cell)
    ensures CellOf(PutCell(db, prefix, key, c), prefix, key) == c
    ensures forall k :: k != CounterKey(prefix, key) && k != BlockKey(prefix, key) ==>
                          Get(PutCell(db, prefix, key, c), k) == Get(db, k)
    ensures c == CellOf(db, prefix, key) ==> PutCell(db, prefix, key, c) == db
  {
    KindKeysDiffer(prefix, key);
  }
}
