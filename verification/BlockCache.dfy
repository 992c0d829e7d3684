/** The bounded cache of blocked buckets of `blockcache.go`: key string to the instant it is trusted until. */
module BlockCache {
  import opened Prelude

  type Entries = map<string, int>

  function Lookup(entries: Entries, k: string, now: int): Option<int> {
    if k in entries && now < entries[k] then Some(entries[k]) else None
  }

  /** The time an answer is trusted for. */
  function Trust(ttl: int, maxTTL: int): int {
    if maxTTL > 0 && ttl > maxTTL then maxTTL else ttl
  }

  function RememberStep(entries: Entries, k: string, ttl: int, maxLen: int, maxTTL: int, now: int): Entries {
    if k !in entries && maxLen > 0 && |entries| >= maxLen then entries
    else entries[k := now + Trust(ttl, maxTTL)]
  }

  function SweepStep(entries: Entries, now: int): Entries {
    map k | k in entries && now < entries[k] :: entries[k]
  }

  class Cache {
    const maxLen: int
    const maxTTL: int
    var entries: Entries
    var hits: int

    constructor (maxLen: int, maxTTL: int)
      ensures this.maxLen == maxLen && this.maxTTL == maxTTL && entries == map[] && hits == 0
    {
      this.maxLen, this.maxTTL := maxLen, maxTTL;
      entries, hits := map[], 0;
    }

    method Find(k: string, now: int) returns (until: Option<int>)
      ensures until == Lookup(entries, k, now)
    {
      if k !in entries || now >= entries[k] {
        return None;
      }
      return Some(entries[k]);
    }

    method Hit()
      modifies this`hits
      ensures hits == old(hits) + 1
    {
      hits := hits + 1;
    }

    method Remember(k: string, ttl: int, now: int)
      modifies this`entries
      ensures entries == RememberStep(old(entries), k, ttl, maxLen, maxTTL, now)
    {
      var trusted := ttl;
      if maxTTL > 0 && trusted > maxTTL {
        trusted := maxTTL;
      }
      if k !in entries && maxLen > 0 && |entries| >= maxLen {
        return;
      }
      entries := entries[k := now + trusted];
    }

    /** Visits every entry, in any order, and deletes those whose time has passed. */
    method Sweep(now: int)
      modifies this`entries
      ensures entries == SweepStep(old(entries), now)
      ensures forall k :: k in entries ==> now < entries[k]
      ensures forall k, t :: now <= t ==> Lookup(entries, k, t) == old(Lookup(entries, k, t))
    {
      var left := entries.Keys;
      while left != {}
        invariant left <= entries.Keys <= old(entries).Keys
        invariant forall k :: k in entries ==> entries[k] == old(entries)[k]
        invariant forall k :: k in old(entries) && k !in left ==> (k in entries <==> now < old(entries)[k])
        decreases left
      {
        var k :| k in left;
        left := left - {k};
        if now >= entries[k] {
          entries := entries - {k};
        }
      }
    }
  }

  /** The same entry is found for every key from now on. */
  ghost predicate SameLookups(entries: Entries, entries': Entries, now: int) {
    forall k, t :: now <= t ==> Lookup(entries, k, t) == Lookup(entries', k, t)
  }

  /** A sweep frees exactly what no lookup will find again. */
  lemma SweepUnseen(entries: Entries, now: int)
    ensures SameLookups(SweepStep(entries, now), entries, now)
    ensures forall k :: k in SweepStep(entries, now) ==> now < SweepStep(entries, now)[k]
    ensures forall k :: k in entries && now < entries[k] ==> k in SweepStep(entries, now)
  {
  }

  /**
   * What remembering promises: the answer is found again for the time it is trusted and no longer,
   * unless the key is new and the cache full; no other key is affected.
   */
  lemma RememberFound(entries: Entries, k: string, ttl: int, maxLen: int, maxTTL: int, now: int, l: string, t: int)
    ensures
      var after := RememberStep(entries, k, ttl, maxLen, maxTTL, now);
      var room := k in entries || maxLen <= 0 || |entries| < maxLen;
      && (l != k || !room ==> Lookup(after, l, t) == Lookup(entries, l, t))
      && (l == k && room ==> (Lookup(after, k, t).Some? <==> t - now < ttl && (maxTTL > 0 ==> t - now < maxTTL)))
  {
  }

  lemma RememberBounded(entries: Entries, k: string, ttl: int, maxLen: int, maxTTL: int, now: int)
    requires maxLen > 0 && |entries| <= maxLen
    ensures |RememberStep(entries, k, ttl, maxLen, maxTTL, now)| <= maxLen
  {
    var after := RememberStep(entries, k, ttl, maxLen, maxTTL, now);
    assert after.Keys <= entries.Keys + {k};
    if k in entries {
      assert after.Keys == entries.Keys;
    }
  }

  lemma SubsetSize<K>(a: set<K>, b: set<K>)
    requires a <= b
    ensures |a| <= |b|
  {
    assert b == a + (b - a);
    assert |b| == |a| + |b - a|;
  }
}
