/**
 * The engine over the production stack, cache and breaker included, decides as the engine straight on
 * the store does, as long as the store answers.
 */
module EngineTransparency {
  import opened Prelude
  import opened Store
  import opened StorageKeys
  import opened Redis
  import opened StoreRuns
  import opened Stack
  import opened Engine
  import Breaker

  /** No cache, no breaker: the engine straight on the store. */
  predicate Plain(cfg: Config) {
    !cfg.cached && cfg.threshold <= 0
  }

  /** The same store without its decorators. */
  function Bare(cfg: Config): (bare: Config)
    ensures Plain(bare) && bare.prefix == cfg.prefix
  {
    cfg.(cached := false, threshold := 0)
  }

  lemma PlainAsk(cfg: Config, s: Layers, t: Turn, b: string)
    requires Plain(cfg) && t.tick.fault.Healthy?
    ensures
      var (db, a) := StoreStep(s.db, cfg.prefix, Event(t.tick.now, t.limiter.CallFor(b)));
      Ask(cfg, s, t, b).0.db == db && Ask(cfg, s, t, b).1 == ReadAnswer(a)
  {
    hide StoreStep;
  }

  /** The layers of the stack, and the same keyspace without them. */
  ghost predicate Aligned(s: Layers, s': Layers, prefix: string) {
    s.db == s'.db && s.circuit == Breaker.CLOSED && Backed(s.entries, s.db, prefix) && Typed(s.db, prefix)
  }

  /** Agreement up to the cap on the wait. */
  predicate SameSeen(o: Outcome<Seen>, o': Outcome<Seen>) {
    && o.Ok? && o'.Ok? && o.value.blocked == o'.value.blocked && o.value.count == o'.value.count
    && ShorterWait(o.value.blocked, o.value.retryAfter, o'.value.retryAfter)
  }

  /** The cache may report a shorter wait than the block has left, but never none. */
  predicate ShorterWait(blocked: bool, wait: int, remaining: int) {
    wait == remaining || (blocked && 0 < wait <= remaining)
  }

  lemma AskTransparent(cfg: Config, s: Layers, s': Layers, t: Turn, b: string)
    requires Aligned(s, s', cfg.prefix) && t.tick.fault.Healthy? && ValidName(t.limiter.name) && t.limiter.Active()
    ensures Aligned(Ask(cfg, s, t, b).0, Ask(Bare(cfg), s', t, b).0, cfg.prefix)
    ensures SameSeen(Ask(cfg, s, t, b).1, Ask(Bare(cfg), s', t, b).1)
  {
    hide StackStep, StoreStep, Backed, Typed;
    var e := Event(t.tick.now, t.limiter.CallFor(b));
    TypedStep(s.db, cfg.prefix, e);
    StackInvariantStep(cfg, s, e);
    PlainAsk(Bare(cfg), s', t, b);
  }

  predicate SameDecision(d: Decision, d': Decision) {
    && d.(retryAfter := 0) == d'.(retryAfter := 0)
    && ShorterWait(d.blocked, d.retryAfter, d'.retryAfter)
  }

  lemma JudgeTransparent(d: Decision, d': Decision, l: Limiter, o: Outcome<Seen>, o': Outcome<Seen>)
    requires SameDecision(d, d') && SameSeen(o, o')
    ensures SameDecision(Judge(d, l, o), Judge(d', l, o')) && VerdictOf(l, o) == VerdictOf(l, o')
  {
  }

  predicate HealthyTurns(turns: seq<Turn>) {
    forall i :: 0 <= i < |turns| ==> turns[i].tick.fault.Healthy?
  }

  /** One request: both walks decide alike and leave the same keyspace. */
  lemma {:induction false} WalkTransparent(cfg: Config, req: Request, turns: seq<Turn>, s: Layers, s': Layers)
    requires Aligned(s, s', cfg.prefix) && ValidTurns(turns) && HealthyTurns(turns)
    ensures
      var w, w' := Walk(cfg, req, turns, s), Walk(Bare(cfg), req, turns, s');
      Aligned(w.layers, w'.layers, cfg.prefix) && SameDecision(w.decision, w'.decision) && w.stopped == w'.stopped
  {
    if turns != [] {
      hide Aligned, Ask, Judge, VerdictOf, SameDecision, SameSeen, Walk;
      WalkTransparent(cfg, req, Init(turns), s, s');
      WalkStep(cfg, req, turns, s);
      WalkStep(Bare(cfg), req, turns, s');
      var w, w', t := Walk(cfg, req, Init(turns), s), Walk(Bare(cfg), req, Init(turns), s'), Last(turns);
      var b := t.limiter.Consulted(req);
      if !w.stopped && b.Some? {
        AskTransparent(cfg, w.layers, w'.layers, t, b.value);
        JudgeTransparent(w.decision, w'.decision, t.limiter, Ask(cfg, w.layers, t, b.value).1, Ask(Bare(cfg), w'.layers, t, b.value).1);
      }
    } else {
      assert ShorterWait(false, 0, 0);
    }
  }

  predicate HealthyHistory(history: seq<Happening>) {
    forall i :: 0 <= i < |history| && history[i].Evaluated? ==> HealthyTurns(history[i].visit.turns)
  }

  lemma HappenTransparent(cfg: Config, s: Layers, s': Layers, h: Happening)
    requires Aligned(s, s', cfg.prefix) && ValidHappening(h) && (h.Evaluated? ==> HealthyTurns(h.visit.turns))
    ensures Aligned(Happen(cfg, s, h), Happen(Bare(cfg), s', h), cfg.prefix)
  {
    match h {
      case Evaluated(v) =>
        hide Walk, Aligned;
        WalkTransparent(cfg, v.req, v.turns, s, s');
      case Swept(_) =>
        hide Typed;
      case Elsewhere(e) =>
        hide StoreStep, Backed, Typed;
        BackedStep(s.entries, s.db, cfg.prefix, e);
        TypedStep(s.db, cfg.prefix, e);
    }
  }

  lemma {:induction false} HistoryTransparent(cfg: Config, history: seq<Happening>)
    requires ValidHistory(history) && HealthyHistory(history)
    ensures Aligned(LayersAfter(cfg, history), LayersAfter(Bare(cfg), history), cfg.prefix)
  {
    if history == [] {
    } else {
      hide Aligned, Happen, ValidHappening, HealthyTurns;
      var before, h := history[..|history| - 1], history[|history| - 1];
      HistoryTransparent(cfg, before);
      HappenTransparent(cfg, LayersAfter(cfg, before), LayersAfter(Bare(cfg), before), h);
    }
  }

  /**
   * Engine transparency: over any history of requests to a store that answers, sweeps and other
   * replicas' scripts, with any cache and breaker settings, every decision and every evaluation is
   * that of the undecorated store and leaves the same keyspace; only the reported wait of a block may
   * be shorter, and is then still positive.
   */
  lemma EngineTransparent(cfg: Config, history: seq<Happening>, v: Visit)
    requires ValidHistory(history) && HealthyHistory(history) && ValidTurns(v.turns) && HealthyTurns(v.turns)
    ensures
      var w, w' := Walk(cfg, v.req, v.turns, LayersAfter(cfg, history)), Walk(Bare(cfg), v.req, v.turns, LayersAfter(Bare(cfg), history));
      SameDecision(w.decision, w'.decision) && w.layers.db == w'.layers.db
  {
    hide Walk, LayersAfter, ValidHistory, HealthyHistory, SameDecision;
    HistoryTransparent(cfg, history);
    WalkTransparent(cfg, v.req, v.turns, LayersAfter(cfg, history), LayersAfter(Bare(cfg), history));
  }
}
