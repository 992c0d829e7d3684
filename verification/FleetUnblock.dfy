/** What an operator's unblock does to the caches of a running fleet. */
module FleetUnblock {
  import opened Prelude
  import opened Store
  import opened StorageKeys
  import opened Redis
  import opened StoreRuns
  import opened BlockCache
  import opened Breaker
  import opened Stack
  import opened Fleet

  /** The request's script has run, or never will. */
  predicate Ran(p: Phase) {
    !p.Looked? && !p.Admitted?
  }

  /** What a request handed to its replica's cache, it handed over in that replica's past. */
  predicate HandedOver(s: System, q: Request) {
    q.phase.Done? && q.phase.source.FromScript? && q.phase.source.remembered.Some? ==>
      q.replica < |s.replicas| && q.phase.source.remembered.value <= s.replicas[q.replica].clock
  }

  ghost predicate Ledger(s: System) {
    && LogsAligned(s)
    && (forall m :: 0 <= m < |s.owner| ==> s.owner[m] in s.requests && Ran(s.requests[s.owner[m]].phase))
    && (forall id :: id in s.requests ==> HandedOver(s, s.requests[id]))
  }

  lemma LedgerStep(cfg: Config, s: System, m: Move)
    requires Ledger(s)
    ensures Ledger(Next(cfg, s, m))
  {
    hide StoreStep, AllowStep, RecordStep, RememberStep, Cacheable, Lookup, SweepStep, ValidCall;
    if m.Execute? {
      LedgerExecute(cfg, s, m.id, m.now, m.fault);
    }
  }

  lemma LedgerExecute(cfg: Config, s: System, id: nat, now: int, fault: Fault)
    requires Ledger(s)
    ensures Ledger(DoExecute(cfg, s, id, now, fault))
  {
    hide StoreStep;
  }

  lemma {:induction false} LedgerAlways(cfg: Config, replicas: nat, schedule: seq<Move>)
    ensures Ledger(After(cfg, replicas, schedule))
  {
    if schedule == [] {
    } else {
      hide Next, Ledger;
      LedgerAlways(cfg, replicas, schedule[..|schedule| - 1]);
      LedgerStep(cfg, After(cfg, replicas, schedule[..|schedule| - 1]), schedule[|schedule| - 1]);
    }
  }

  // ---------------------------------------------------------------- continuing a schedule

  lemma ExtendsStep(cfg: Config, s: System, m: Move)
    requires LogsAligned(s)
    ensures Extends(s, Next(cfg, s, m))
  {
    hide StoreStep, AllowStep, RecordStep, RememberStep, Cacheable, Lookup, SweepStep, ValidCall;
  }

  lemma ExtendsTransitive(s: System, t: System, u: System)
    requires Extends(s, t) && Extends(t, u)
    ensures Extends(s, u)
  {
  }

  /** Entry m of the log went over the limit and set a block on the key. */
  predicate SetsBlock(e: Event, a: Answer, key: Key) {
    && e.call.ConsumeCall? && SameStorage(e.call.key, key)
    && a.Consumed? && a.result.Ok? && a.result.value.blocked && a.result.value.count > e.call.rule.limit
  }

  /** Some script after the first n0 and up to number n set one. */
  predicate NewBlock(s: System, key: Key, n0: nat, n: nat)
    requires LogsAligned(s) && n <= |s.log|
  {
    exists m :: n0 <= m < n && SetsBlock(s.log[m], s.replies[m], key)
  }

  /** A block, and a blocked answer, on a key that had none comes from counting past the limit. */
  lemma BlockOrigin(db: Db, prefix: string, e: Event, key: Key)
    requires ValidName(e.call.key.limiter) && ValidName(key.limiter)
    ensures
      var (db', a) := StoreStep(db, prefix, e);
      && (CellOf(db', prefix, key).block.Some? ==> CellOf(db, prefix, key).block.Some? || SetsBlock(e, a, key))
      && (SameStorage(e.call.key, key) && Cacheable(a) ==> CellOf(db, prefix, key).block.Some? || SetsBlock(e, a, key))
  {
    StepFrame(db, prefix, e, key);
    if e.call.ConsumeCall? && SameStorage(e.call.key, key) && e.call.rule.Valid() {
      var rule := e.call.rule;
      assert CellOf(db, prefix, e.call.key) == CellOf(db, prefix, key);
      var (c, _) := DecideCell(CellOf(db, prefix, key), rule.limit, Rounded(rule.window), Rounded(rule.block), e.now);
      PutCellGet(db, prefix, e.call.key, c);
    }
  }

  /** From the unblock on, neither a block on the key nor a blocked answer exists without a new one. */
  ghost predicate Afresh(cfg: Config, s: System, key: Key, n0: nat) {
    && LogsAligned(s) && n0 <= |s.log|
    && (CellOf(s.db, cfg.prefix, key).block.Some? ==> NewBlock(s, key, n0, |s.log|))
    && (forall m :: n0 <= m < |s.log| && SameStorage(s.log[m].call.key, key) && Cacheable(s.replies[m]) ==>
                      NewBlock(s, key, n0, m + 1))
  }

  lemma NewBlockStays(s: System, s': System, key: Key, n0: nat, n: nat, n': nat)
    requires Extends(s, s') && n <= n' <= |s'.log| && n <= |s.log| && NewBlock(s, key, n0, n)
    ensures NewBlock(s', key, n0, n')
  {
    var m :| n0 <= m < n && SetsBlock(s.log[m], s.replies[m], key);
    assert s'.log[m] == s.log[m] && s'.replies[m] == s.replies[m];
  }

  /** A step that runs no script at most removes blocks. */
  lemma AfreshKept(cfg: Config, s: System, s': System, key: Key, n0: nat)
    requires Afresh(cfg, s, key, n0) && Extends(s, s') && s'.log == s.log && s'.replies == s.replies
    requires CellOf(s'.db, cfg.prefix, key).block.Some? ==> CellOf(s.db, cfg.prefix, key).block.Some?
    ensures Afresh(cfg, s', key, n0)
  {
    hide SetsBlock, Cacheable;
  }

  lemma AfreshScript(cfg: Config, s: System, s': System, e: Event, key: Key, n0: nat)
    requires Afresh(cfg, s, key, n0) && Extends(s, s') && ValidName(e.call.key.limiter) && ValidName(key.limiter)
    requires s'.log == s.log + [e] && s'.replies == s.replies + [StoreStep(s.db, cfg.prefix, e).1]
    requires s'.db == StoreStep(s.db, cfg.prefix, e).0
    ensures Afresh(cfg, s', key, n0)
  {
    hide StoreStep, SetsBlock, Cacheable, NewBlock, CellOf, SameStorage;
    var n, a := |s.log|, StoreStep(s.db, cfg.prefix, e).1;
    BlockOrigin(s.db, cfg.prefix, e, key);
    if CellOf(s.db, cfg.prefix, key).block.Some? {
      NewBlockStays(s, s', key, n0, n, n + 1);
    } else if SetsBlock(e, a, key) {
      SetsNewBlock(s', key, n0, n);
    }
    forall m | n0 <= m < |s'.log| && SameStorage(s'.log[m].call.key, key) && Cacheable(s'.replies[m])
      ensures NewBlock(s', key, n0, m + 1)
    {
      if m < n {
        assert s'.log[m] == s.log[m] && s'.replies[m] == s.replies[m];
        NewBlockStays(s, s', key, n0, m + 1, m + 1);
      }
    }
  }

  lemma SetsNewBlock(s: System, key: Key, n0: nat, m: nat)
    requires LogsAligned(s) && n0 <= m < |s.log| && SetsBlock(s.log[m], s.replies[m], key)
    ensures NewBlock(s, key, n0, m + 1)
  {
  }

  lemma AfreshStep(cfg: Config, s: System, m: Move, key: Key, n0: nat)
    requires Inv(cfg, s) && Afresh(cfg, s, key, n0) && ValidName(key.limiter)
    ensures Afresh(cfg, Next(cfg, s, m), key, n0)
  {
    hide Inv, Afresh, Extends, StoreStep;
    InvOf(cfg, s);
    ExtendsStep(cfg, s, m);
    if m.Execute? && CanExecute(s, m.id, m.now) && !m.fault.LostRequest? {
      InvRequest(cfg, s, m.id);
      AfreshScript(cfg, s, Next(cfg, s, m), Event(m.now, s.requests[m.id].call), key, n0);
    } else {
      AfreshKept(cfg, s, Next(cfg, s, m), key, n0);
    }
  }

  lemma {:induction false} AfreshContinues(cfg: Config, replicas: nat, before: seq<Move>, more: seq<Move>, key: Key, n0: nat)
    requires ValidName(key.limiter) && Afresh(cfg, After(cfg, replicas, before), key, n0)
    ensures
      var s, s' := After(cfg, replicas, before), After(cfg, replicas, before + more);
      Afresh(cfg, s', key, n0) && Extends(s, s')
  {
    hide Next, Afresh, Extends, Inv;
    AfterContinues(cfg, replicas, before, more);
    InvAlways(cfg, replicas, before);
    InvOf(cfg, After(cfg, replicas, before));
    if more == [] {
      ExtendsItself(After(cfg, replicas, before));
    } else {
      var n, s := |more| - 1, After(cfg, replicas, before);
      AfreshContinues(cfg, replicas, before, more[..n], key, n0);
      AfterContinues(cfg, replicas, before, more[..n]);
      InvAlways(cfg, replicas, before + more[..n]);
      var t := After(cfg, replicas, before + more[..n]);
      InvOf(cfg, t);
      ExtendsStep(cfg, t, more[n]);
      ExtendsTransitive(s, t, Next(cfg, t, more[n]));
      AfreshStep(cfg, t, more[n], key, n0);
    }
  }

  lemma ExtendsItself(s: System)
    requires LogsAligned(s)
    ensures Extends(s, s)
  {
  }

  /** The request's script had run and its answer was on its way to the cache. */
  predicate OnItsWay(s: System, id: nat) {
    id in s.requests && (s.requests[id].phase.Replied? || s.requests[id].phase.Recorded?)
  }

  /** The answer a request brought from its script was on its way at `s0`, or the script ran later. */
  lemma RanLater(s0: System, s: System, j: nat, replica: nat, k: string)
    requires Ledger(s0) && Extends(s0, s) && Justifies(s, j, replica, k) && replica < |s0.replicas|
    requires RememberedAt(s, j) > s0.replicas[replica].clock
    ensures OnItsWay(s0, j) || s.requests[j].phase.source.entry >= |s0.log|
  {
    var m := s.requests[j].phase.source.entry;
    if m < |s0.log| {
      assert s0.owner[m] == s.owner[m] == j;
      assert HandedOver(s0, s0.requests[j]);
    }
  }

  /**
   * An unblock takes effect: whatever an operator unblocks, and however the fleet goes on, a hit on
   * that key at or after the replica's clock at the unblock plus the cap rests on a script that ran
   * after the unblock, and on a block that counting past the limit set anew after it; or else on an
   * answer that was already on its way from Redis to the cache at the unblock.
   */
  lemma UnblockTakesEffect(cfg: Config, replicas: nat, before: seq<Move>, key: Key, later: seq<Move>, id: nat)
    requires ValidName(key.limiter) && cfg.maxTTL > 0
    requires
      var s0, s := After(cfg, replicas, before), After(cfg, replicas, before + [Unblock(key)] + later);
      && AnsweredFromCache(s, id) && SameStorage(s.requests[id].call.key, key)
      && s.requests[id].replica < |s0.replicas|
      && s.requests[id].phase.source.at >= s0.replicas[s.requests[id].replica].clock + cfg.maxTTL
    ensures
      var s0, s := After(cfg, replicas, before), After(cfg, replicas, before + [Unblock(key)] + later);
      var because := s.requests[id].phase.source.because;
      && because.Some? && Justifies(s, because.value, s.requests[id].replica, s.requests[id].call.key.String())
      && var script := s.requests[because.value].phase.source.entry;
         || OnItsWay(s0, because.value)
         || (script >= |s0.log| && NewBlock(s, key, |s0.log|, script + 1))
  {
    hide After, Extends, Inv, Ledger, NewBlock, Next, Justifies, RememberedAt, TrustedUntil;
    var s0, s := After(cfg, replicas, before), After(cfg, replicas, before + [Unblock(key)] + later);
    UnblockedState(cfg, replicas, before, key);
    LedgerAlways(cfg, replicas, before);
    var s1 := After(cfg, replicas, before + [Unblock(key)]);
    AfreshContinues(cfg, replicas, before + [Unblock(key)], later, key, |s0.log|);
    ExtendsTransitive(s0, s1, s);
    HitsAreJustified(cfg, replicas, before + [Unblock(key)] + later, id);
    var j := s.requests[id].phase.source.because.value;
    RememberedLate(cfg, s, j, s.requests[id].replica, s.requests[id].call.key.String(), s.requests[id].phase.source.at);
    RanLater(s0, s, j, s.requests[id].replica, s.requests[id].call.key.String());
    JustifyingEntry(s, j, s.requests[id].replica, s.requests[id].call.key.String());
  }

  lemma UnblockedState(cfg: Config, replicas: nat, before: seq<Move>, key: Key)
    ensures
      var s0, s1 := After(cfg, replicas, before), After(cfg, replicas, before + [Unblock(key)]);
      Extends(s0, s1) && Afresh(cfg, s1, key, |s0.log|)
  {
    var s0 := After(cfg, replicas, before);
    InvAlways(cfg, replicas, before);
    InvOf(cfg, s0);
    AfterContinues(cfg, replicas, before, [Unblock(key)]);
    hide Inv, After, Extends, Afresh, Next;
    assert Continue(cfg, s0, [Unblock(key)]) == Next(cfg, Continue(cfg, s0, []), Unblock(key));
    UnblockStep(cfg, s0, key);
  }

  lemma UnblockStep(cfg: Config, s: System, key: Key)
    requires LogsAligned(s)
    ensures Extends(s, Next(cfg, s, Unblock(key))) && Afresh(cfg, Next(cfg, s, Unblock(key)), key, |s.log|)
  {
    ExtendsStep(cfg, s, Unblock(key));
  }

  lemma RememberedLate(cfg: Config, s: System, j: nat, replica: nat, k: string, t: int)
    requires Justifies(s, j, replica, k) && cfg.maxTTL > 0 && t < TrustedUntil(cfg, s, j)
    ensures RememberedAt(s, j) > t - cfg.maxTTL
  {
  }

  lemma JustifyingEntry(s: System, j: nat, replica: nat, k: string)
    requires Justifies(s, j, replica, k)
    ensures
      var m := s.requests[j].phase.source.entry;
      && LogsAligned(s) && m < |s.log| && s.log[m].call == s.requests[j].call
      && Cacheable(s.replies[m]) && s.requests[j].call.key.String() == k
  {
  }
}
