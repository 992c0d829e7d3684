/** What the fixed window promises over whole runs. */
module WindowRuns {
  import opened Prelude
  import opened Store
  import opened StorageKeys
  import opened Redis
  import opened StoreRuns

  /** A run in which the key has not been counted before, with validated names and an ordered clock. */
  predicate Fresh(r: Run, key: Key) {
    r.Valid() && ValidName(key.limiter) && r.CellAt(0, key) == Cell(None, None)
  }

  /**
   * The shape of every reachable cell: a counter is positive and carries an expiry, a block carries
   * an expiry, and where both are present the block is already over.
   */
  predicate CellShape(c: Cell, last: int) {
    && (c.counter.Some? ==>
          c.counter.value.value.Count? && c.counter.value.value.n >= 1 && c.counter.value.expiry.Some?)
    && (c.block.Some? ==> c.block.value.expiry.Some?)
    && (c.counter.Some? && c.block.Some? ==> c.block.value.expiry.value <= last)
  }

  lemma ShapeStep(c: Cell, last: int, limit: int, window: int, block: int, now: int)
    requires CellShape(c, last) && last <= now && limit >= 1
    ensures CellShape(DecideCell(c, limit, window, block, now).0, now)
    ensures DecideCell(c, limit, window, block, now).1.Ok?
  {
  }

  lemma {:induction false} ShapeAt(r: Run, key: Key, n: nat, last: int)
    requires Fresh(r, key) && n <= |r.events|
    requires n > 0 ==> r.Time(n - 1) <= last
    ensures CellShape(r.CellAt(n, key), last)
  {
    if n == 0 {
    } else {
      hide Run.State, Run.Answer, Run.CellAt;
      CellStep(r, n - 1, key);
      ShapeAt(r, key, n - 1, r.Time(n - 1));
      if r.ConsumesAt(n - 1, key) && r.events[n - 1].call.rule.Valid() {
        var rule := r.events[n - 1].call.rule;
        ShapeStep(r.CellAt(n - 1, key), r.Time(n - 1), rule.limit, Rounded(rule.window), Rounded(rule.block), r.Time(n - 1));
      }
    }
  }

  /** The key is only ever consumed with this rule. */
  predicate FixedRule(r: Run, key: Key, rule: Rule) {
    rule.Valid() && forall i :: 0 <= i < |r.events| && r.ConsumesAt(i, key) ==> r.events[i].call.rule == rule
  }

  lemma {:induction false} CountWithinLimit(r: Run, key: Key, rule: Rule, n: nat)
    requires Fresh(r, key) && FixedRule(r, key, rule) && n <= |r.events|
    ensures r.CellAt(n, key).counter.Some? && r.CellAt(n, key).counter.value.value.Count? ==>
              r.CellAt(n, key).counter.value.value.n <= rule.limit
  {
    hide Run.State, Run.Answer, Run.CellAt;
    if n == 0 {
    } else {
      CellStep(r, n - 1, key);
      CountWithinLimit(r, key, rule, n - 1);
    }
  }

  /**
   * In every reachable state, at every later instant, a live block excludes a live counter, and
   * every counter carries an expiry and lies in 1..limit.
   */
  lemma ReachableCells(r: Run, key: Key, rule: Rule, n: nat, now: int)
    requires Fresh(r, key) && FixedRule(r, key, rule) && n <= |r.events|
    requires n > 0 ==> r.Time(n - 1) <= now
    ensures
      var c := r.CellAt(n, key);
      && !(Live(c.counter, now) && Live(c.block, now))
      && (c.counter.Some? ==>
            && c.counter.value.expiry.Some?
            && c.counter.value.value.Count?
            && 1 <= c.counter.value.value.n <= rule.limit)
  {
    ShapeAt(r, key, n, now);
    CountWithinLimit(r, key, rule, n);
  }

  /** Call j is the one that exceeded the limit and set the block. */
  predicate BlocksAt(r: Run, key: Key, j: nat)
    requires j < |r.events|
  {
    && r.ConsumesAt(j, key)
    && r.Answer(j).Consumed? && r.Answer(j).result.Ok?
    && r.Answer(j).result.value.blocked && r.Answer(j).result.value.count != -1
  }

  /** The instant at which the block set by call j lifts. */
  function BlockEnd(r: Run, j: nat): int
    requires j < |r.events| && r.events[j].call.ConsumeCall?
  {
    r.Time(j) + Rounded(r.events[j].call.rule.block)
  }

  /** Until the block lifts the cell is frozen, whatever hammering and whatever rules come in between. */
  lemma {:induction false} BlockFreezes(r: Run, key: Key, j: nat, n: nat)
    requires Fresh(r, key) && j < n <= |r.events| && BlocksAt(r, key, j)
    requires forall m :: j < m < n && r.ConsumesAt(m, key) ==> r.Time(m) < BlockEnd(r, j)
    ensures r.CellAt(n, key) == Cell(None, Some(Entry(Marker, Some(BlockEnd(r, j)))))
  {
    hide Run.State, Run.Answer, Run.CellAt;
    CellStep(r, n - 1, key);
    if n - 1 == j {
      ShapeAt(r, key, j, r.Time(j));
    } else {
      BlockFreezes(r, key, j, n - 1);
    }
  }

  /**
   * Block means exactly block: a call made before the block lifts is refused with count -1 and the
   * exact remainder and changes nothing in the store; the first call made at or after that instant is
   * allowed and counts 1. Window length and hammering do not matter.
   */
  lemma BlockIsExact(r: Run, key: Key, j: nat, n: nat)
    requires Fresh(r, key) && j < n < |r.events| && BlocksAt(r, key, j)
    requires r.ConsumesAt(n, key) && r.events[n].call.rule.Valid()
    requires forall m :: j < m < n && r.ConsumesAt(m, key) ==> r.Time(m) < BlockEnd(r, j)
    ensures r.Time(n) < BlockEnd(r, j) ==>
              r.Answer(n) == Consumed(Ok(Result(true, -1, BlockEnd(r, j) - r.Time(n)))) && r.State(n + 1) == r.State(n)
    ensures r.Time(n) >= BlockEnd(r, j) ==> r.Answer(n) == Consumed(Ok(Result(false, 1, 0)))
  {
    BlockFreezes(r, key, j, n);
    CellStep(r, n, key);
    var e := r.events[n];
    assert CellOf(r.State(n), r.prefix, e.call.key) == r.CellAt(n, key);
    PutCellGet(r.State(n), r.prefix, e.call.key, r.CellAt(n, key));
    assert r.State(n + 1) == StoreStep(r.State(n), r.prefix, e).0;
    hide Run.State, Run.Answer, Run.CellAt, BlocksAt, Run.Valid, PutCell;
  }

  predicate AllowedAt(r: Run, key: Key, n: nat)
    requires n < |r.events|
  {
    r.ConsumesAt(n, key) && r.Answer(n).Consumed? && r.Answer(n).result.Ok? && !r.Answer(n).result.value.blocked
  }

  /** How many calls on the key were allowed among calls i..n-1. */
  function Allows(r: Run, key: Key, i: nat, n: nat): nat
    requires i <= n <= |r.events|
    decreases n
  {
    if n == i then 0 else Allows(r, key, i, n - 1) + if AllowedAt(r, key, n - 1) then 1 else 0
  }

  /** How many of them opened a counting window. */
  function Starts(r: Run, key: Key, i: nat, n: nat): nat
    requires i <= n <= |r.events|
    decreases n
  {
    if n == i then 0
    else Starts(r, key, i, n - 1) + if AllowedAt(r, key, n - 1) && r.Answer(n - 1).result.value.count == 1 then 1 else 0
  }

  /** The least distance between two window openings. */
  function Spacing(rule: Rule): (d: int)
    ensures d > 0
  {
    Min(Rounded(rule.window), Rounded(rule.block))
  }

  /**
   * Seen from an instant t0 on: each of the s windows opened since then admits at most limit calls, a
   * window already open at t0 at most limit - 1, and the s-th window opened no earlier than (s - 1)
   * spacings after t0. The cell remembers when the next one may open.
   */
  predicate WindowInvariant(c: Cell, rule: Rule, allows: nat, s: nat, t0: int, last: int) {
    var begun := t0 + (s - 1) * Spacing(rule);
    && (c.counter.Some? ==> c.counter.value.value.Count? && c.counter.value.expiry.Some?)
    && allows + 1 <= rule.limit * s + (if c.counter.Some? then c.counter.value.value.n else rule.limit)
    && (c.counter.Some? ==> 1 <= c.counter.value.value.n <= rule.limit)
    && (s > 0 ==>
          && begun <= last
          && (c.counter.Some? ==> c.counter.value.expiry.value >= begun + Rounded(rule.window))
          && (c.counter.None? ==>
                c.block.Some? && c.block.value.expiry.Some? &&
                c.block.value.expiry.value >= begun + Rounded(rule.block)))
  }

  lemma WindowInvariantStep(c: Cell, rule: Rule, allows: nat, s: nat, t0: int, last: int, now: int)
    requires rule.Valid() && t0 <= now && last <= now
    requires WindowInvariant(c, rule, allows, s, t0, last) && CellShape(c, now)
    ensures
      var (c', answer) := DecideCell(c, rule.limit, Rounded(rule.window), Rounded(rule.block), now);
      && answer.Ok?
      && WindowInvariant(c', rule, allows + (if answer.value.blocked then 0 else 1),
                         s + (if !answer.value.blocked && answer.value.count == 1 then 1 else 0), t0, now)
  {
    var d := Spacing(rule);
    assert (s + 1 - 1) * d == (s - 1) * d + d;
    assert rule.limit * (s + 1) == rule.limit * s + rule.limit;
  }

  lemma WindowInvariantStarts(r: Run, key: Key, rule: Rule, i: nat)
    requires Fresh(r, key) && FixedRule(r, key, rule) && i < |r.events|
    ensures WindowInvariant(r.CellAt(i, key), rule, 0, 0, r.Time(i), r.Time(i))
  {
    hide Run.State, Run.CellAt;
    ShapeAt(r, key, i, r.Time(i));
    CountWithinLimit(r, key, rule, i);
  }

  lemma {:induction false} WindowInvariantHolds(r: Run, key: Key, rule: Rule, i: nat, n: nat)
    requires Fresh(r, key) && FixedRule(r, key, rule) && i <= n <= |r.events| && i < |r.events|
    ensures WindowInvariant(r.CellAt(n, key), rule, Allows(r, key, i, n), Starts(r, key, i, n), r.Time(i),
                            if n > i then r.Time(n - 1) else r.Time(i))
    decreases n
  {
    hide Run.State, Run.Answer, Run.CellAt, DecideCell, Spacing;
    if n == i {
      WindowInvariantStarts(r, key, rule, i);
    } else {
      var now := r.Time(n - 1);
      WindowInvariantHolds(r, key, rule, i, n - 1);
      ShapeAt(r, key, n - 1, now);
      CellStep(r, n - 1, key);
      if r.ConsumesAt(n - 1, key) {
        WindowInvariantStep(r.CellAt(n - 1, key), rule, Allows(r, key, i, n - 1), Starts(r, key, i, n - 1), r.Time(i),
                            if n - 1 > i then r.Time(n - 2) else r.Time(i), now);
      }
    }
  }

  /**
   * The distributed bound. Calls i..n-1 are all the calls made in some half-open interval of length
   * span: fewer than limit * (1 + ceil(span / min(window, block))) of them are allowed.
   */
  lemma WindowBound(r: Run, key: Key, rule: Rule, i: nat, n: nat, span: int)
    requires Fresh(r, key) && FixedRule(r, key, rule) && i < n <= |r.events| && span > 0
    requires r.Time(n - 1) < r.Time(i) + span
    ensures Allows(r, key, i, n) < rule.limit * (1 + CeilDiv(span, Spacing(rule)))
  {
    hide Run.State, Run.Answer, Run.CellAt, Run.Valid, Spacing, Allows, Starts, Fresh, FixedRule;
    WindowInvariantHolds(r, key, rule, i, n);
    var c, s, d := r.CellAt(n, key), Starts(r, key, i, n), Spacing(rule);
    assert Allows(r, key, i, n) < rule.limit * s + rule.limit;
    assert s > 0 ==> (s - 1) * d < span;
    hide WindowInvariant;
    StartsFit(s, d, span);
    MulMonotone(s, CeilDiv(span, d), rule.limit);
    Distribute(rule.limit, CeilDiv(span, d));
  }

  /** So many multiples of d below span are no more than its ceiling. */
  lemma StartsFit(s: nat, d: int, span: int)
    requires d > 0 && span > 0 && (s > 0 ==> (s - 1) * d < span)
    ensures s <= CeilDiv(span, d)
  {
    var q := CeilDiv(span, d);
    if s > q {
      assert q >= 0 by {
        if q < 0 { MulMonotone(q, 0, d); assert false; }
      }
      MulMonotone(q, s - 1, d);
      assert false;
    }
  }

  lemma Distribute(a: int, q: int)
    ensures a * (1 + q) == a * q + a
  {
  }

  lemma LongBlockSpacing(rule: Rule)
    requires rule.Valid() && rule.block >= rule.window
    ensures Spacing(rule) == Rounded(rule.window)
  {
    CeilDivLeast(rule.window, SECOND, Seconds(rule.block));
  }

  /** When the block is no shorter than the window, one window length admits fewer than twice the limit. */
  lemma UnderTwiceTheLimit(r: Run, key: Key, rule: Rule, i: nat, n: nat)
    requires Fresh(r, key) && FixedRule(r, key, rule) && i < n <= |r.events|
    requires rule.block >= rule.window
    requires r.Time(n - 1) < r.Time(i) + Rounded(rule.window)
    ensures Allows(r, key, i, n) < 2 * rule.limit
  {
    var w := Rounded(rule.window);
    LongBlockSpacing(rule);
    WindowBound(r, key, rule, i, n, w);
    CeilDivLeast(w, w, 1);
    MulMonotone(CeilDiv(w, w), 1, rule.limit);
    assert rule.limit * (1 + CeilDiv(w, w)) == rule.limit + rule.limit * CeilDiv(w, w);
  }

  /** One call opens a window, the rest of its limit comes at its very end, and a whole limit right after it. */
  function Straddle(key: Key, rule: Rule): (r: Run)
    requires rule.Valid()
    ensures |r.events| == 2 * rule.limit
  {
    var w := Rounded(rule.window);
    Run("", map[], seq(2 * rule.limit, n =>
      Event(if n == 0 then 0 else if n < rule.limit then w - 1 else w, ConsumeCall(key, rule))))
  }

  lemma StraddleValid(key: Key, rule: Rule)
    requires rule.Valid() && ValidName(key.limiter)
    ensures Straddle(key, rule).Valid() && Straddle(key, rule).CellAt(0, key) == StraddledCell(rule, 0)
  {
  }

  /** The cell after n of its calls. */
  function StraddledCell(rule: Rule, n: nat): Cell {
    var w, first := Rounded(rule.window), n <= rule.limit;
    if n == 0 then Cell(None, None)
    else Cell(Some(Entry(Count(if first then n else n - rule.limit), Some(if first then w else 2 * w))), None)
  }

  lemma StraddleStep(rule: Rule, n: nat, now: int)
    requires rule.Valid() && n < 2 * rule.limit
    requires now == if n == 0 then 0 else if n < rule.limit then Rounded(rule.window) - 1 else Rounded(rule.window)
    ensures
      var (c, answer) := DecideCell(StraddledCell(rule, n), rule.limit, Rounded(rule.window), Rounded(rule.block), now);
      c == StraddledCell(rule, n + 1) && answer.Ok? && !answer.value.blocked
  {
  }

  lemma {:induction false} StraddleCell(key: Key, rule: Rule, n: nat)
    requires rule.Valid() && ValidName(key.limiter) && n <= 2 * rule.limit
    ensures Straddle(key, rule).CellAt(n, key) == StraddledCell(rule, n)
    ensures n > 0 ==> AllowedAt(Straddle(key, rule), key, n - 1)
  {
    StraddleValid(key, rule);
    hide Run.State, Run.Answer, Run.CellAt, Run.Valid, DecideCell, StraddledCell;
    if n == 0 {
    } else {
      StraddleCell(key, rule, n - 1);
      CellStep(Straddle(key, rule), n - 1, key);
      StraddleStep(rule, n - 1, Straddle(key, rule).Time(n - 1));
    }
  }

  lemma {:induction false} AllAllowed(r: Run, key: Key, i: nat, n: nat)
    requires i <= n <= |r.events| && forall m :: i <= m < n ==> AllowedAt(r, key, m)
    ensures Allows(r, key, i, n) == n - i
    decreases n
  {
    hide AllowedAt;
    if i == n {
    } else {
      AllAllowed(r, key, i, n - 1);
    }
  }

  /** The bound is reached: under every rule some window length admits one less than twice the limit. */
  lemma UnderTwiceTheLimitIsTight(key: Key, rule: Rule)
    requires rule.Valid() && ValidName(key.limiter)
    ensures
      var r, n := Straddle(key, rule), 2 * rule.limit;
      && Fresh(r, key) && FixedRule(r, key, rule)
      && r.Time(n - 1) < r.Time(1) + Rounded(rule.window)
      && Allows(r, key, 1, n) == 2 * rule.limit - 1
  {
    hide Run.State, Run.Answer, Run.CellAt, Run.Valid, AllowedAt;
    var r, n := Straddle(key, rule), 2 * rule.limit;
    StraddleValid(key, rule);
    StraddleCell(key, rule, 0);
    forall m | 1 <= m < n ensures AllowedAt(r, key, m) {
      StraddleCell(key, rule, m + 1);
    }
    AllAllowed(r, key, 1, n);
  }
}
