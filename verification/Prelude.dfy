/** Shared vocabulary: optional values, call outcomes, Go's duration units and ceiling division. */
module Prelude {
  datatype Option<+T> = None | Some(value: T)

  /** What a store call returns: a value, or an error. Callers treat every error alike. */
  datatype Outcome<+T> = Ok(value: T) | Err

  /** Instants and durations are counted in nanoseconds, as `time.Duration` is. */
  const MILLISECOND := 1_000_000
  const SECOND := 1_000_000_000

  function Min(a: int, b: int): int {
    if a <= b then a else b
  }

  function Max(a: int, b: int): int {
    if a >= b then a else b
  }

  /** The least integer q with n <= d * q. */
  function CeilDiv(n: int, d: int): (q: int)
    requires d > 0
    ensures d * (q - 1) < n <= d * q
  {
    -((-n) / d)
  }

  lemma MulMonotone(a: int, b: int, c: int)
    requires a <= b && 0 <= c
    ensures c * a <= c * b && a * c <= b * c
  {
  }

  /** CeilDiv is the least multiplier that covers n. */
  lemma CeilDivLeast(n: int, d: int, q: int)
    requires d > 0 && n <= d * q
    ensures CeilDiv(n, d) <= q
  {
    if q < CeilDiv(n, d) {
      MulMonotone(q, CeilDiv(n, d) - 1, d);
    }
  }

  lemma DivMonotone(a: int, b: int, d: int)
    requires d > 0 && a <= b
    ensures a / d <= b / d
  {
    if b / d < a / d {
      MulMonotone(b / d + 1, a / d, d);
    }
  }

  function Get<K, V>(m: map<K, V>, k: K): Option<V> {
    if k in m then Some(m[k]) else None
  }

  /** Write Some, delete None. */
  function Put<K, V>(m: map<K, V>, k: K, v: Option<V>): map<K, V> {
    if v.Some? then m[k := v.value] else m - {k}
  }

  lemma PutGet<K, V>(m: map<K, V>, k: K)
    ensures Put(m, k, Get(m, k)) == m
  {
  }
}
