/** Dry-run limiters interfere with nothing: remove them all and every enforcement stays as it was. */
module DryRun {
  import opened Prelude
  import opened Store
  import opened StorageKeys
  import opened Redis
  import opened StoreRuns
  import opened Stack
  import opened Engine
  import opened BlockCache
  import opened EngineTransparency
  import Breaker

  /** The turns of the limiters that enforce. */
  function Enforcing(turns: seq<Turn>): seq<Turn> {
    if turns == [] then []
    else Enforcing(Init(turns)) + if Last(turns).limiter.dryRun then [] else [Last(turns)]
  }

  function EnforcingEvaluations(evals: seq<Evaluation>, dry: set<string>): seq<Evaluation> {
    if evals == [] then []
    else
      var e := evals[|evals| - 1];
      EnforcingEvaluations(evals[..|evals| - 1], dry) + if e.limiter in dry then [] else [e]
  }

  /** A cache whose capacity the limiters do not compete for. */
  predicate Unshared(cfg: Config) {
    !cfg.cached || cfg.maxLen <= 0
  }

  /** Nothing opens the circuit. */
  predicate Quiet(cfg: Config, turns: seq<Turn>) {
    cfg.threshold <= 0 || HealthyTurns(turns)
  }

  /** Unique names: a dry-run limiter shares its name with no enforcing one. */
  predicate Separated(turns: seq<Turn>, dry: set<string>) {
    forall i :: 0 <= i < |turns| ==>
                  ValidName(turns[i].limiter.name) && (turns[i].limiter.dryRun <==> turns[i].limiter.name in dry)
  }

  /** Both keyspaces hold the same for every limiter that is not dry-run. */
  ghost predicate SameForEnforcing(db: Db, db': Db, prefix: string, dry: set<string>) {
    forall key: Key :: ValidName(key.limiter) && key.limiter !in dry ==>
                         CellOf(db, prefix, key) == CellOf(db', prefix, key) &&
                         BucketOf(db, prefix, key) == BucketOf(db', prefix, key)
  }

  /** Both caches trust the same entries of every limiter that is not dry-run. */
  ghost predicate SameEntries(entries: Entries, entries': Entries, dry: set<string>) {
    forall key: Key :: ValidName(key.limiter) && key.limiter !in dry ==> Get(entries, key.String()) == Get(entries', key.String())
  }

  /** No enforcing limiter can tell the two stacks apart. */
  ghost predicate Twin(cfg: Config, s: Layers, s': Layers, dry: set<string>) {
    && SameForEnforcing(s.db, s'.db, cfg.prefix, dry)
    && (cfg.cached ==> SameEntries(s.entries, s'.entries, dry))
    && (cfg.threshold > 0 ==> Sound(s, cfg.prefix) && Sound(s', cfg.prefix))
  }

  /** A closed circuit over a keyspace that cannot err. */
  ghost predicate Sound(s: Layers, prefix: string) {
    s.circuit == Breaker.CLOSED && Typed(s.db, prefix)
  }

  /** The decisions agree on everything a response is built from. */
  predicate SameResponse(d: Decision, d': Decision) {
    && d.Rejected() == d'.Rejected()
    && (d.Rejected() ==>
          && d.limiter == d'.limiter && d.count == d'.count && d.retryAfter == d'.retryAfter
          && d.adviseRetryAfter == d'.adviseRetryAfter)
  }

  /** The same call on both sides gets the same answer and keeps them the same. */
  lemma SameCall(db: Db, db': Db, prefix: string, dry: set<string>, e: Event)
    requires SameForEnforcing(db, db', prefix, dry) && ValidName(e.call.key.limiter) && e.call.key.limiter !in dry
    ensures StoreStep(db, prefix, e).1 == StoreStep(db', prefix, e).1
    ensures SameForEnforcing(StoreStep(db, prefix, e).0, StoreStep(db', prefix, e).0, prefix, dry)
  {
    var after, after' := StoreStep(db, prefix, e).0, StoreStep(db', prefix, e).0;
    assert CellOf(db, prefix, e.call.key) == CellOf(db', prefix, e.call.key);
    assert BucketOf(db, prefix, e.call.key) == BucketOf(db', prefix, e.call.key);
    forall key: Key | ValidName(key.limiter) && key.limiter !in dry
      ensures CellOf(after, prefix, key) == CellOf(after', prefix, key)
      ensures BucketOf(after, prefix, key) == BucketOf(after', prefix, key)
    {
      SameCallAt(db, db', prefix, e, key);
    }
  }

  lemma SameCallAt(db: Db, db': Db, prefix: string, e: Event, key: Key)
    requires ValidName(e.call.key.limiter) && ValidName(key.limiter)
    requires CellOf(db, prefix, e.call.key) == CellOf(db', prefix, e.call.key)
    requires BucketOf(db, prefix, e.call.key) == BucketOf(db', prefix, e.call.key)
    requires CellOf(db, prefix, key) == CellOf(db', prefix, key)
    requires BucketOf(db, prefix, key) == BucketOf(db', prefix, key)
    ensures CellOf(StoreStep(db, prefix, e).0, prefix, key) == CellOf(StoreStep(db', prefix, e).0, prefix, key)
    ensures BucketOf(StoreStep(db, prefix, e).0, prefix, key) == BucketOf(StoreStep(db', prefix, e).0, prefix, key)
  {
    StepFrame(db, prefix, e, key);
    StepFrame(db', prefix, e, key);
    if SameStorage(e.call.key, key) && e.call.ConsumeCall? && e.call.rule.Valid() {
      var rule := e.call.rule;
      var (c, _) := DecideCell(CellOf(db, prefix, key), rule.limit, Rounded(rule.window), Rounded(rule.block), e.now);
      PutCellGet(db, prefix, e.call.key, c);
      PutCellGet(db', prefix, e.call.key, c);
    }
  }

  /** A dry-run call on the left only: it writes under its own name. */
  lemma DryCall(db: Db, db': Db, prefix: string, dry: set<string>, e: Event)
    requires SameForEnforcing(db, db', prefix, dry) && ValidName(e.call.key.limiter) && e.call.key.limiter in dry
    ensures SameForEnforcing(StoreStep(db, prefix, e).0, db', prefix, dry)
  {
    forall key: Key | ValidName(key.limiter) && key.limiter !in dry
      ensures CellOf(StoreStep(db, prefix, e).0, prefix, key) == CellOf(db', prefix, key)
      ensures BucketOf(StoreStep(db, prefix, e).0, prefix, key) == BucketOf(db', prefix, key)
    {
      StepFrame(db, prefix, e, key);
    }
  }

  // ---------------------------------------------------------------- one store call

  /** Where nothing opens the circuit the breaker only passes the call on. */
  lemma InnerIsRemote(cfg: Config, s: Layers, e: Event, fault: Fault)
    requires ValidCall(e.call) && (cfg.threshold <= 0 || (fault.Healthy? && Sound(s, cfg.prefix)))
    ensures
      var (db, a) := Remote(s.db, cfg.prefix, e, fault);
      && InnerStep(cfg, s, e, fault) == (s.(db := db), a)
      && (cfg.threshold > 0 ==> Sound(s.(db := db), cfg.prefix))
  {
    hide StoreStep, Typed;
    if cfg.threshold > 0 {
      TypedStep(s.db, cfg.prefix, e);
    }
  }

  lemma RememberSame(entries: Entries, entries': Entries, key: Key, ttl: int, cfg: Config, now: int, dry: set<string>)
    requires cfg.maxLen <= 0 && SameEntries(entries, entries', dry) && ValidName(key.limiter)
    ensures
      var after := RememberStep(entries, key.String(), ttl, cfg.maxLen, cfg.maxTTL, now);
      && SameEntries(after, RememberStep(entries', key.String(), ttl, cfg.maxLen, cfg.maxTTL, now), dry)
      && (key.limiter in dry ==> SameEntries(after, entries', dry))
  {
    forall l: Key | ValidName(l.limiter) && l.limiter !in dry ensures l == key || l.String() != key.String() {
      KeyStringInjective(l, key);
    }
  }

  /** What the cache keeps of an answer. */
  function Kept(cfg: Config, s: Layers, e: Event, a: Answer): Layers {
    if cfg.cached && Cacheable(a) then
      s.(entries := RememberStep(s.entries, e.call.key.String(), a.result.value.retryAfter, cfg.maxLen, cfg.maxTTL, e.now))
    else s
  }

  lemma MissedCall(cfg: Config, s: Layers, e: Event, fault: Fault)
    requires CacheHit(cfg, s, e).None?
    ensures StackStep(cfg, s, e, fault) ==
            var (s', a) := InnerStep(cfg, s, e, fault);
            (Kept(cfg, s', e, a), a)
  {
  }

  /** The same call on both stacks: the same answer, and twins again. */
  lemma TwinCall(cfg: Config, s: Layers, s': Layers, e: Event, fault: Fault, dry: set<string>)
    requires Unshared(cfg) && Twin(cfg, s, s', dry) && ValidCall(e.call) && e.call.key.limiter !in dry
    requires cfg.threshold <= 0 || fault.Healthy?
    ensures StackStep(cfg, s, e, fault).1 == StackStep(cfg, s', e, fault).1
    ensures Twin(cfg, StackStep(cfg, s, e, fault).0, StackStep(cfg, s', e, fault).0, dry)
  {
    assert CacheHit(cfg, s, e) == CacheHit(cfg, s', e);
    hide SameForEnforcing, StoreStep, Typed, InnerStep, RememberStep;
    if CacheHit(cfg, s, e).None? {
      InnerIsRemote(cfg, s, e, fault);
      InnerIsRemote(cfg, s', e, fault);
      SameCall(s.db, s'.db, cfg.prefix, dry, e);
      MissedCall(cfg, s, e, fault);
      MissedCall(cfg, s', e, fault);
      hide StackStep, SameEntries;
      var a := Remote(s.db, cfg.prefix, e, fault).1;
      if cfg.cached && Cacheable(a) {
        RememberSame(s.entries, s'.entries, e.call.key, a.result.value.retryAfter, cfg, e.now, dry);
      }
    }
  }

  /** A dry-run call on the left only. */
  lemma DryTwin(cfg: Config, s: Layers, s': Layers, e: Event, fault: Fault, dry: set<string>)
    requires Unshared(cfg) && Twin(cfg, s, s', dry) && ValidCall(e.call) && e.call.key.limiter in dry
    requires cfg.threshold <= 0 || fault.Healthy?
    ensures Twin(cfg, StackStep(cfg, s, e, fault).0, s', dry)
  {
    hide SameForEnforcing, StoreStep, Typed, InnerStep, RememberStep, SameEntries;
    if CacheHit(cfg, s, e).None? {
      InnerIsRemote(cfg, s, e, fault);
      DryCall(s.db, s'.db, cfg.prefix, dry, e);
      MissedCall(cfg, s, e, fault);
      hide StackStep;
      var a := Remote(s.db, cfg.prefix, e, fault).1;
      if cfg.cached && Cacheable(a) {
        RememberSame(s.entries, s'.entries, e.call.key, a.result.value.retryAfter, cfg, e.now, dry);
      }
    }
  }

  // ---------------------------------------------------------------- one request

  /** What relates the walk over all limiters to the walk over the enforcing ones. */
  ghost predicate Erased(cfg: Config, w: Progress, w': Progress, dry: set<string>) {
    && Twin(cfg, w.layers, w'.layers, dry)
    && w.stopped == w'.stopped
    && w.stopped == w.decision.Rejected() == w'.decision.Rejected()
    && (!w.stopped ==> (w.decision.blocked ==> w.decision.dryRun) && !w'.decision.blocked)
    && SameResponse(w.decision, w'.decision)
    && w'.decision.evaluations == EnforcingEvaluations(w.decision.evaluations, dry)
  }

  lemma EvaluationAppended(evals: seq<Evaluation>, e: Evaluation, dry: set<string>)
    ensures EnforcingEvaluations(evals + [e], dry) == EnforcingEvaluations(evals, dry) + if e.limiter in dry then [] else [e]
  {
    assert (evals + [e])[..|evals|] == evals;
  }

  lemma JudgeErased(cfg: Config, w: Progress, w': Progress, dry: set<string>, l: Limiter, o: Outcome<Seen>, s: Layers, s': Layers)
    requires Erased(cfg, w, w', dry) && !w.stopped && Twin(cfg, s, s', dry)
    requires l.dryRun <==> l.name in dry
    ensures
      var v := Progress(s, Judge(w.decision, l, o), VerdictOf(l, o).VerdictBlocked?);
      var v' := if l.dryRun then w'.(layers := s') else Progress(s', Judge(w'.decision, l, o), VerdictOf(l, o).VerdictBlocked?);
      Erased(cfg, v, v', dry)
  {
    hide Twin, EnforcingEvaluations;
    EvaluationAppended(w.decision.evaluations, Evaluation(l.name, VerdictOf(l, o)), dry);
  }

  /** From twins, walking with and without the dry-run limiters ends in twins and in one response. */
  lemma {:induction false} ErasureInOneRequest(cfg: Config, req: Request, turns: seq<Turn>, dry: set<string>, s: Layers, s': Layers)
    requires Unshared(cfg) && Quiet(cfg, turns) && Separated(turns, dry) && Twin(cfg, s, s', dry)
    ensures Erased(cfg, Walk(cfg, req, turns, s), Walk(cfg, req, Enforcing(turns), s'), dry)
  {
    if turns == [] {
    } else {
      hide Twin, Ask, Limiter.Consulted, Judge, VerdictOf, Walk, Enforcing, Separated;
      var init, t := Init(turns), Last(turns);
      SeparatedParts(turns, dry);
      ErasureInOneRequest(cfg, req, init, dry, s, s');
      WalkStep(cfg, req, turns, s);
      WalkEnforcing(cfg, req, turns, s');
      var w, w' := Walk(cfg, req, init, s), Walk(cfg, req, Enforcing(init), s');
      var b := t.limiter.Consulted(req);
      StoppedTogether(cfg, w, w', dry);
      hide Erased;
      if !w.stopped && b.Some? {
        ConsultedIsActive(t.limiter, req);
        TurnErased(cfg, dry, t, b.value, w, w');
      } else {
        assert Walk(cfg, req, turns, s) == w && Walk(cfg, req, Enforcing(turns), s') == w';
      }
    }
  }

  lemma ConsultedIsActive(l: Limiter, req: Request)
    requires l.Consulted(req).Some?
    ensures l.Active()
  {
  }

  lemma SeparatedParts(turns: seq<Turn>, dry: set<string>)
    requires turns != [] && Separated(turns, dry)
    ensures Separated(Init(turns), dry) && Separated([Last(turns)], dry)
  {
  }

  lemma StoppedTogether(cfg: Config, w: Progress, w': Progress, dry: set<string>)
    requires Erased(cfg, w, w', dry)
    ensures w.stopped == w'.stopped
  {
  }

  lemma TurnErased(cfg: Config, dry: set<string>, t: Turn, b: string, w: Progress, w': Progress)
    requires Unshared(cfg) && Quiet(cfg, [t]) && Separated([t], dry) && t.limiter.Active() && Erased(cfg, w, w', dry) && !w.stopped
    ensures
      var (s, o) := Ask(cfg, w.layers, t, b);
      var (s', o') := Ask(cfg, w'.layers, t, b);
      var v := Progress(s, Judge(w.decision, t.limiter, o), VerdictOf(t.limiter, o).VerdictBlocked?);
      var v' := if t.limiter.dryRun then w' else Progress(s', Judge(w'.decision, t.limiter, o'), VerdictOf(t.limiter, o').VerdictBlocked?);
      Erased(cfg, v, v', dry)
  {
    hide Twin, StackStep, Judge, VerdictOf, EnforcingEvaluations;
    assert [t][0] == t;
    var e := Event(t.tick.now, t.limiter.CallFor(b));
    var (s, o) := Ask(cfg, w.layers, t, b);
    if t.limiter.dryRun {
      DryTwin(cfg, w.layers, w'.layers, e, t.tick.fault, dry);
      JudgeErased(cfg, w, w', dry, t.limiter, o, s, w'.layers);
    } else {
      TwinCall(cfg, w.layers, w'.layers, e, t.tick.fault, dry);
      JudgeErased(cfg, w, w', dry, t.limiter, o, s, Ask(cfg, w'.layers, t, b).0);
    }
  }

  /** The erased walk takes the last turn only if its limiter enforces. */
  lemma WalkEnforcing(cfg: Config, req: Request, turns: seq<Turn>, s: Layers)
    requires turns != []
    ensures
      var w, t := Walk(cfg, req, Enforcing(Init(turns)), s), Last(turns);
      var b := t.limiter.Consulted(req);
      Walk(cfg, req, Enforcing(turns), s) ==
      if t.limiter.dryRun || w.stopped || b.None? then w
      else
        var (s', o) := Ask(cfg, w.layers, t, b.value);
        Progress(s', Judge(w.decision, t.limiter, o), VerdictOf(t.limiter, o).VerdictBlocked?)
  {
    hide Ask, Limiter.Consulted, Judge, VerdictOf;
    var t := Last(turns);
    if !t.limiter.dryRun {
      var kept := Enforcing(turns);
      assert Init(kept) == Enforcing(Init(turns)) && Last(kept) == t;
    } else {
      assert Enforcing(turns) == Enforcing(Init(turns));
    }
  }

  // ---------------------------------------------------------------- whole histories

  function EraseVisit(v: Visit): Visit {
    v.(turns := Enforcing(v.turns))
  }

  /** Without the dry-run limiters: their turns here, and their calls elsewhere. */
  function Erase(h: Happening, dry: set<string>): seq<Happening> {
    match h
    case Evaluated(v) => [Evaluated(EraseVisit(v))]
    case Swept(_) => [h]
    case Elsewhere(e) => if e.call.key.limiter in dry then [] else [h]
  }

  function EraseHistory(history: seq<Happening>, dry: set<string>): seq<Happening> {
    if history == [] then []
    else EraseHistory(history[..|history| - 1], dry) + Erase(history[|history| - 1], dry)
  }

  predicate SeparatedHappening(h: Happening, dry: set<string>) {
    match h
    case Evaluated(v) => Separated(v.turns, dry)
    case Swept(_) => true
    case Elsewhere(e) => ValidCall(e.call)
  }

  predicate SeparatedHistory(history: seq<Happening>, dry: set<string>) {
    forall i :: 0 <= i < |history| ==> SeparatedHappening(history[i], dry)
  }

  predicate QuietHistory(cfg: Config, history: seq<Happening>) {
    cfg.threshold <= 0 || HealthyHistory(history)
  }

  lemma HappenErased(cfg: Config, s: Layers, s': Layers, h: Happening, dry: set<string>)
    requires Unshared(cfg) && Twin(cfg, s, s', dry) && SeparatedHappening(h, dry)
    requires h.Evaluated? ==> Quiet(cfg, h.visit.turns)
    ensures Twin(cfg, Happen(cfg, s, h), LayersFrom(cfg, s', Erase(h, dry)), dry)
  {
    LayersOfOne(cfg, s', h);
    match h {
      case Evaluated(v) =>
        hide Walk, Twin, LayersFrom;
        LayersOfOne(cfg, s', Evaluated(EraseVisit(v)));
        ErasureInOneRequest(cfg, v.req, v.turns, dry, s, s');
      case Swept(_) =>
        hide SameForEnforcing, Typed, LayersFrom;
      case Elsewhere(e) =>
        hide SameForEnforcing, SameEntries, Typed, StoreStep, LayersFrom;
        if cfg.threshold > 0 {
          TypedStep(s.db, cfg.prefix, e);
          TypedStep(s'.db, cfg.prefix, e);
        }
        if e.call.key.limiter in dry {
          DryCall(s.db, s'.db, cfg.prefix, dry, e);
        } else {
          SameCall(s.db, s'.db, cfg.prefix, dry, e);
        }
    }
  }

  lemma LayersOfOne(cfg: Config, s: Layers, h: Happening)
    ensures LayersFrom(cfg, s, [h]) == Happen(cfg, s, h) && LayersFrom(cfg, s, []) == s
  {
    assert [h][..0] == [];
  }

  lemma {:induction false} LayersConcat(cfg: Config, s: Layers, a: seq<Happening>, b: seq<Happening>)
    ensures LayersFrom(cfg, s, a + b) == LayersFrom(cfg, LayersFrom(cfg, s, a), b)
  {
    hide Happen;
    if b == [] {
      assert a + b == a;
    } else {
      assert (a + b)[..|a + b| - 1] == a + b[..|b| - 1];
      LayersConcat(cfg, s, a, b[..|b| - 1]);
    }
  }

  lemma {:induction false} StatesErased(cfg: Config, history: seq<Happening>, dry: set<string>)
    requires Unshared(cfg) && SeparatedHistory(history, dry) && QuietHistory(cfg, history)
    ensures Twin(cfg, LayersAfter(cfg, history), LayersAfter(cfg, EraseHistory(history, dry)), dry)
  {
    if history == [] {
    } else {
      hide Twin, Happen, SeparatedHappening;
      var before, h := history[..|history| - 1], history[|history| - 1];
      StatesErased(cfg, before, dry);
      LayersConcat(cfg, START, EraseHistory(before, dry), Erase(h, dry));
      HappenErased(cfg, LayersAfter(cfg, before), LayersAfter(cfg, EraseHistory(before, dry)), h, dry);
    }
  }

  /**
   * Dry-run erasure: over any history, removing every dry-run limiter leaves each request's rejection
   * unchanged, with the same limiter, count, wait and advice, the enforcing limiters' evaluations, and
   * their part of the store. With the breaker off this holds whatever requests and replies are lost.
   */
  lemma DryRunErasure(cfg: Config, history: seq<Happening>, v: Visit, dry: set<string>)
    requires Unshared(cfg) && SeparatedHistory(history, dry) && Separated(v.turns, dry)
    requires QuietHistory(cfg, history) && Quiet(cfg, v.turns)
    ensures
      var s, s' := LayersAfter(cfg, history), LayersAfter(cfg, EraseHistory(history, dry));
      var w, w' := Walk(cfg, v.req, v.turns, s), Walk(cfg, v.req, Enforcing(v.turns), s');
      && SameResponse(w.decision, w'.decision)
      && w'.decision.evaluations == EnforcingEvaluations(w.decision.evaluations, dry)
      && SameForEnforcing(w.layers.db, w'.layers.db, cfg.prefix, dry)
  {
    hide Walk, SameForEnforcing, LayersAfter, SameResponse, EnforcingEvaluations;
    StatesErased(cfg, history, dry);
    ErasureInOneRequest(cfg, v.req, v.turns, dry, LayersAfter(cfg, history), LayersAfter(cfg, EraseHistory(history, dry)));
  }

  // ---------------------------------------------------------------- any cache, a store that answers

  /** Agreement on everything but the wait. */
  predicate SameRejection(d: Decision, d': Decision) {
    && d.Rejected() == d'.Rejected()
    && (d.Rejected() ==> d.limiter == d'.limiter && d.count == d'.count && d.adviseRetryAfter == d'.adviseRetryAfter)
  }

  lemma {:induction false} EnforcingKeeps(turns: seq<Turn>, dry: set<string>)
    requires Separated(turns, dry)
    ensures ValidTurns(Enforcing(turns)) && (HealthyTurns(turns) ==> HealthyTurns(Enforcing(turns)))
  {
    if turns == [] {
    } else {
      EnforcingKeeps(Init(turns), dry);
    }
  }

  lemma {:induction false} ErasedIsValid(history: seq<Happening>, dry: set<string>)
    requires SeparatedHistory(history, dry)
    ensures ValidHistory(history) && ValidHistory(EraseHistory(history, dry))
    ensures HealthyHistory(history) ==> HealthyHistory(EraseHistory(history, dry))
  {
    if history == [] {
    } else {
      var h := history[|history| - 1];
      ErasedIsValid(history[..|history| - 1], dry);
      if h.Evaluated? {
        EnforcingKeeps(h.visit.turns, dry);
      }
      hide Enforcing, ValidTurns, HealthyTurns, Separated, ValidCall;
    }
  }

  /**
   * On a store that answers, whatever the cache and the breaker: although dry-run calls share both,
   * removing them changes no rejection, and no enforcing limiter's store state.
   */
  lemma StackDryRunErasure(cfg: Config, history: seq<Happening>, v: Visit, dry: set<string>)
    requires SeparatedHistory(history, dry) && HealthyHistory(history)
    requires Separated(v.turns, dry) && HealthyTurns(v.turns)
    ensures
      var w := Walk(cfg, v.req, v.turns, LayersAfter(cfg, history));
      var w' := Walk(cfg, v.req, Enforcing(v.turns), LayersAfter(cfg, EraseHistory(history, dry)));
      && SameRejection(w.decision, w'.decision)
      && w'.decision.evaluations == EnforcingEvaluations(w.decision.evaluations, dry)
      && SameForEnforcing(w.layers.db, w'.layers.db, cfg.prefix, dry)
  {
    ErasedIsValid(history, dry);
    EnforcingKeeps(v.turns, dry);
    SeparatedIsValid(v.turns, dry);
    hide Walk, SameForEnforcing, LayersAfter, EnforcingEvaluations, EraseHistory, Enforcing, ValidHistory, HealthyHistory,
         SeparatedHistory, Separated, HealthyTurns, ValidTurns;
    EngineTransparent(cfg, history, v);
    EngineTransparent(cfg, EraseHistory(history, dry), EraseVisit(v));
    DryRunErasure(Bare(cfg), history, v, dry);
  }

  lemma SeparatedIsValid(turns: seq<Turn>, dry: set<string>)
    requires Separated(turns, dry)
    ensures ValidTurns(turns)
  {
  }
}
