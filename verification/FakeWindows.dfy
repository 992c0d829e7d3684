/** When the fake's fixed window answers as the script does: exactly for rules in whole seconds, and keys that do not alias. */
module FakeWindows {
  import opened Prelude
  import opened Store
  import opened StorageKeys
  import opened Redis
  import opened StoreRuns
  import opened Fake
  import WindowRuns

  function LiveUntil(e: Option<Entry>, now: int): Option<int> {
    if Live(e, now) then e.value.expiry else None
  }

  function After(t: Option<int>, now: int): Option<int> {
    if t.Some? && now < t.value then t else None
  }

  /** Seen from `now` on, the cell and the fake hold the same block and the same count. */
  predicate SameWindow(c: Cell, f: FakeCell, now: int) {
    && WindowRuns.CellShape(c, now)
    && (f.count.Some? <==> f.expires.Some?)
    && LiveUntil(c.block, now) == After(f.blocked, now)
    && LiveUntil(c.counter, now) == After(f.expires, now)
    && (Live(c.counter, now) ==> c.counter.value.value == Count(f.count.value))
  }

  lemma SameWindowLater(c: Cell, f: FakeCell, last: int, now: int)
    requires SameWindow(c, f, last) && last <= now
    ensures SameWindow(c, f, now)
  {
  }

  predicate WholeSeconds(rule: Rule) {
    rule.Valid() && rule.window % SECOND == 0 && rule.block % SECOND == 0
  }

  lemma ConsumeAgrees(c: Cell, f: FakeCell, rule: Rule, now: int)
    requires SameWindow(c, f, now) && WholeSeconds(rule)
    ensures
      var (c', r) := DecideCell(c, rule.limit, Rounded(rule.window), Rounded(rule.block), now);
      var (f', r') := ConsumeCell(f, rule, now);
      r == Ok(r') && SameWindow(c', f', now)
  {
    assert Rounded(rule.window) == rule.window && Rounded(rule.block) == rule.block;
  }

  /** Every call on the key, up to number n, has whole-second durations. */
  predicate WholeUpTo(r: Run, key: Key, n: nat)
    requires n <= |r.events|
  {
    forall i :: 0 <= i < n && r.ConsumesAt(i, key) ==> WholeSeconds(r.events[i].call.rule)
  }

  lemma {:induction false} WindowsSimulate(r: Run, n: nat, key: Key, now: int)
    requires WindowRuns.Fresh(r, key) && n <= |r.events| && Unaliased(r, key, n) && WholeUpTo(r, key, n)
    requires n > 0 ==> r.Time(n - 1) <= now
    ensures SameWindow(r.CellAt(n, key), FakeAt(r, n).Cell(key.String()), now)
  {
    if n == 0 {
    } else {
      hide Run.State, Run.Answer, Run.CellAt, DecideCell, ConsumeCell, FakeAt, State.Cell, SameWindow;
      var e, past, f := r.events[n - 1], r.Time(n - 1), FakeAt(r, n - 1);
      WindowsSimulate(r, n - 1, key, past);
      CellStep(r, n - 1, key);
      FakeStep(r, n - 1, key);
      if e.call.ConsumeCall? && e.call.key == key {
        ConsumeAgrees(r.CellAt(n - 1, key), f.Cell(key.String()), e.call.rule, past);
      }
      SameWindowLater(r.CellAt(n, key), FakeAt(r, n).Cell(key.String()), past, now);
    }
  }

  /** Call n gets the same answer from both stores. */
  predicate AgreesAt(r: Run, n: nat)
    requires n < |r.events| && r.events[n].call.ConsumeCall?
  {
    var key, rule := r.events[n].call.key, r.events[n].call.rule;
    r.Answer(n) == Consumed(Ok(ConsumeCell(FakeAt(r, n).Cell(key.String()), rule, r.Time(n)).1))
  }

  /** `Fake.Consume` gives the script's answer on every such call of every run, on any number of keys. */
  lemma FakeConsumeRefines(r: Run, n: nat)
    requires n < |r.events| && r.events[n].call.ConsumeCall?
    requires
      var key := r.events[n].call.key;
      WindowRuns.Fresh(r, key) && Unaliased(r, key, n + 1) && WholeUpTo(r, key, n + 1)
    ensures AgreesAt(r, n)
  {
    var key, rule := r.events[n].call.key, r.events[n].call.rule;
    WindowsSimulate(r, n, key, r.Time(n));
    CellStep(r, n, key);
    ConsumeAgrees(r.CellAt(n, key), FakeAt(r, n).Cell(key.String()), rule, r.Time(n));
  }

  // ---------------------------------------------------------------- whole seconds are needed

  /** A run that only counts this key, with this rule. */
  predicate Only(r: Run, key: Key, rule: Rule) {
    WindowRuns.Fresh(r, key) && forall i :: 0 <= i < |r.events| ==> r.events[i].call == ConsumeCall(key, rule)
  }

  /** One call more than the limit, all at once. */
  function Hammer(key: Key, rule: Rule): (r: Run)
    requires rule.Valid()
    ensures |r.events| == rule.limit + 1
  {
    Run("", map[], seq(rule.limit + 1, _ => Event(0, ConsumeCall(key, rule))))
  }

  /** A run that only counts this key, with this rule, at once. */
  predicate AtOnce(r: Run, key: Key, rule: Rule) {
    Only(r, key, rule) && r.db == map[] && forall i :: 0 <= i < |r.events| ==> r.events[i].now == 0
  }

  lemma HammerAtOnce(key: Key, rule: Rule)
    requires rule.Valid() && ValidName(key.limiter)
    ensures AtOnce(Hammer(key, rule), key, rule)
  {
  }

  /** What both stores hold after n of these calls. */
  function HammerCell(rule: Rule, n: nat): Cell {
    if n == 0 then Cell(None, None) else Cell(Some(Entry(Count(n), Some(Rounded(rule.window)))), None)
  }

  function HammerFake(rule: Rule, n: nat): FakeCell {
    if n == 0 then FakeCell(None, None, None) else FakeCell(Some(n), Some(rule.window), None)
  }

  function CountOnce(rule: Rule, c: Cell): Cell {
    DecideCell(c, rule.limit, Rounded(rule.window), Rounded(rule.block), 0).0
  }

  lemma HammerStep(rule: Rule, n: nat)
    requires rule.Valid() && n < rule.limit
    ensures CountOnce(rule, HammerCell(rule, n)) == HammerCell(rule, n + 1)
    ensures ConsumeCell(HammerFake(rule, n), rule, 0).0 == HammerFake(rule, n + 1)
  {
  }

  lemma OwnStep(r: Run, n: nat, key: Key, rule: Rule)
    requires n < |r.events| && AtOnce(r, key, rule) && rule.Valid()
    ensures r.CellAt(n + 1, key) == CountOnce(rule, r.CellAt(n, key))
    ensures FakeAt(r, n + 1).Cell(key.String()) == ConsumeCell(FakeAt(r, n).Cell(key.String()), rule, 0).0
  {
    hide Run.State, Run.Answer, Run.CellAt, FakeAt, DecideCell, ConsumeCell, TakeState;
    CellStep(r, n, key);
    FakeStep(r, n, key);
  }

  lemma HammerStart(r: Run, key: Key, rule: Rule)
    requires AtOnce(r, key, rule)
    ensures r.CellAt(0, key) == HammerCell(rule, 0) && FakeAt(r, 0).Cell(key.String()) == HammerFake(rule, 0)
  {
  }

  lemma {:induction false} HammerAt(r: Run, key: Key, rule: Rule, n: nat)
    requires rule.Valid() && AtOnce(r, key, rule) && n <= |r.events| && n <= rule.limit
    ensures r.CellAt(n, key) == HammerCell(rule, n) && FakeAt(r, n).Cell(key.String()) == HammerFake(rule, n)
  {
    hide *;
    HammerStart(r, key, rule);
    if n == 0 {
    } else {
      HammerAt(r, key, rule, n - 1);
      HammerStep(rule, n - 1);
      OwnStep(r, n - 1, key, rule);
    }
  }

  /** A fraction of a second in the block shows in the wait of the call that sets it. */
  lemma BlockFractionShows(key: Key, rule: Rule)
    requires rule.Valid() && ValidName(key.limiter) && rule.block % SECOND != 0
    ensures !AgreesAt(Hammer(key, rule), rule.limit)
  {
    HammerAtOnce(key, rule);
    HammerAt(Hammer(key, rule), key, rule, rule.limit);
    CellStep(Hammer(key, rule), rule.limit, key);
  }

  /** Two calls, exactly a window apart. */
  function Pair(key: Key, rule: Rule): Run {
    Run("", map[], [Event(0, ConsumeCall(key, rule)), Event(rule.window, ConsumeCall(key, rule))])
  }

  /** A fraction of a second in the window shows when the fake's window is over and the script's is not. */
  lemma WindowFractionShows(key: Key, rule: Rule)
    requires rule.Valid() && ValidName(key.limiter) && rule.window % SECOND != 0
    ensures Only(Pair(key, rule), key, rule) && !AgreesAt(Pair(key, rule), 1)
  {
    var r := Pair(key, rule);
    assert r.CellAt(0, key) == Cell(None, None);
    assert FakeAt(r, 0).Cell(key.String()) == FakeCell(None, None, None);
    CellStep(r, 0, key);
    CellStep(r, 1, key);
    FakeStep(r, 0, key);
    hide Run.State, Run.Answer, Run.CellAt, FakeAt, State.Cell;
    assert Rounded(rule.window) > rule.window;
  }

  /** For every valid rule: the fake agrees on every run if and only if both durations are whole seconds. */
  lemma WholeSecondsExactly(key: Key, rule: Rule)
    requires rule.Valid() && ValidName(key.limiter)
    ensures WholeSeconds(rule) <==>
            forall r: Run, n: nat :: Only(r, key, rule) && n < |r.events| ==> AgreesAt(r, n)
  {
    if WholeSeconds(rule) {
      forall r: Run, n: nat | Only(r, key, rule) && n < |r.events| ensures AgreesAt(r, n) {
        FakeConsumeRefines(r, n);
      }
    } else if rule.block % SECOND != 0 {
      BlockFractionShows(key, rule);
      HammerAtOnce(key, rule);
      assert !AgreesAt(Hammer(key, rule), rule.limit);
    } else {
      WindowFractionShows(key, rule);
      assert !AgreesAt(Pair(key, rule), 1);
    }
  }

  /** Two keys that share their Redis keys are told apart by the fake: the second call shows it, unless they are one key. */
  lemma AliasesExactly(k: Key, l: Key, rule: Rule)
    requires WholeSeconds(rule) && ValidName(k.limiter) && SameStorage(k, l)
    ensures
      var r := Run("", map[], [Event(0, ConsumeCall(k, rule)), Event(0, ConsumeCall(l, rule))]);
      AgreesAt(r, 1) <==> k == l
  {
    var r := Run("", map[], [Event(0, ConsumeCall(k, rule)), Event(0, ConsumeCall(l, rule))]);
    if k == l {
      FakeConsumeRefines(r, 1);
    } else {
      assert r.CellAt(0, l) == Cell(None, None);
      assert FakeAt(r, 0).Cell(l.String()) == FakeCell(None, None, None);
      CellStep(r, 0, l);
      CellStep(r, 1, l);
      FakeStep(r, 0, l);
      hide Run.State, Run.Answer, Run.CellAt, FakeAt, State.Cell;
    }
  }
}
