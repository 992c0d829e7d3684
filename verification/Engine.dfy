/** The engine of `engine.go`: walk the limiters, ask the store, let the first enforced block decide. */
module Engine {
  import opened Prelude
  import opened Store
  import opened StoreRuns
  import opened Redis
  import opened Stack
  import Breaker
  import BlockCache
  import Paths

  datatype Request = Request(path: string, verb: string, headers: map<string, string>, query: map<string, string>, body: string)

  /** What a keyer does with a request; a panic is recovered and reads as "does not apply". */
  datatype Keying = Keyed(bucket: string) | NotApplicable | Panicked

  datatype Limiter = Limiter(name: string, rule: Rule, bucket: Bucket, keyer: Request -> Keying,
                             paths: seq<string>, methods: seq<string>, dryRun: bool, adviseRetryAfter: bool)
  {
    predicate Active() {
      rule.Valid() || bucket.Valid()
    }

    predicate Applies(path: string, verb: string) {
      Paths.PathInScope(paths, path) && Paths.MethodInScope(methods, verb)
    }

    /** The bucket to count against, if the limiter has a say in this request. */
    function Consulted(req: Request): Option<string> {
      if Applies(req.path, req.verb) && Active() && keyer(req).Keyed? then Some(keyer(req).bucket) else None
    }

    /** The token bucket takes precedence. */
    function CallFor(b: string): Call {
      if bucket.Valid() then TakeCall(Key(name, b), bucket) else ConsumeCall(Key(name, b), rule)
    }
  }

  datatype Verdict = VerdictAllowed | VerdictBlocked | VerdictWouldBlock | VerdictFailedOpen

  datatype Evaluation = Evaluation(limiter: string, verdict: Verdict)

  datatype Decision = Decision(blocked: bool, dryRun: bool, limiter: string, count: int, retryAfter: int,
                               adviseRetryAfter: bool, evaluations: seq<Evaluation>)
  {
    predicate Rejected() {
      blocked && !dryRun
    }
  }

  const UNDECIDED := Decision(false, false, "", 0, 0, false, [])

  /** Both store algorithms in one shape. */
  datatype Seen = Seen(blocked: bool, count: int, retryAfter: int)

  function ReadAnswer(a: Answer): Outcome<Seen> {
    match a
    case Consumed(Ok(r)) => Ok(Seen(r.blocked, r.count, r.retryAfter))
    case Taken(Ok(r)) => Ok(Seen(!r.allowed, r.remaining, r.retryAfter))
    case _ => Err
  }

  function VerdictOf(l: Limiter, o: Outcome<Seen>): Verdict {
    if o.Err? then VerdictFailedOpen
    else if !o.value.blocked then VerdictAllowed
    else if l.dryRun then VerdictWouldBlock
    else VerdictBlocked
  }

  /** One limiter's answer folded into the decision. */
  function Judge(d: Decision, l: Limiter, o: Outcome<Seen>): Decision {
    var v := VerdictOf(l, o);
    var d' := d.(evaluations := d.evaluations + [Evaluation(l.name, v)]);
    match v
    case VerdictWouldBlock =>
      if d.blocked then d'
      else d'.(blocked := true, dryRun := true, limiter := l.name, count := o.value.count, retryAfter := o.value.retryAfter)
    case VerdictBlocked =>
      d'.(blocked := true, dryRun := false, limiter := l.name, count := o.value.count, retryAfter := o.value.retryAfter,
          adviseRetryAfter := l.adviseRetryAfter)
    case _ => d'
  }

  /** The instant and the network weather of one store call. */
  datatype Tick = Tick(now: int, fault: Fault)

  datatype Turn = Turn(limiter: Limiter, tick: Tick)

  datatype Progress = Progress(layers: Layers, decision: Decision, stopped: bool)

  function Ask(cfg: Config, s: Layers, t: Turn, b: string): (Layers, Outcome<Seen>) {
    var (s', a) := StackStep(cfg, s, Event(t.tick.now, t.limiter.CallFor(b)), t.tick.fault);
    (s', ReadAnswer(a))
  }

  function Init(turns: seq<Turn>): seq<Turn>
    requires turns != []
  {
    turns[..|turns| - 1]
  }

  function Last(turns: seq<Turn>): Turn
    requires turns != []
  {
    turns[|turns| - 1]
  }

  /** `Evaluate`, limiter by limiter, stopping at an enforced block. */
  function Walk(cfg: Config, req: Request, turns: seq<Turn>, s: Layers): Progress {
    if turns == [] then Progress(s, UNDECIDED, false)
    else
      var w, t := Walk(cfg, req, Init(turns), s), Last(turns);
      var b := t.limiter.Consulted(req);
      if w.stopped || b.None? then w
      else
        var (s', o) := Ask(cfg, w.layers, t, b.value);
        Progress(s', Judge(w.decision, t.limiter, o), VerdictOf(t.limiter, o).VerdictBlocked?)
  }

  function Turns(limiters: seq<Limiter>, ticks: seq<Tick>): (turns: seq<Turn>)
    requires |ticks| == |limiters|
    ensures |turns| == |limiters|
    ensures forall i :: 0 <= i < |turns| ==> turns[i] == Turn(limiters[i], ticks[i])
  {
    seq(|limiters|, i requires 0 <= i < |limiters| => Turn(limiters[i], ticks[i]))
  }

  class LimiterEngine {
    const limiters: seq<Limiter>
    const stack: StoreStack

    constructor (limiters: seq<Limiter>, stack: StoreStack)
      ensures this.limiters == limiters && this.stack == stack
    {
      this.limiters := limiters;
      this.stack := stack;
    }

    /** The path search, and only where it succeeds the method search. */
    method Applies(l: Limiter, req: Request) returns (yes: bool)
      ensures yes == l.Applies(req.path, req.verb)
    {
      yes := Paths.MatchesPath(l.paths, req.path);
      if yes {
        yes := Paths.MatchesMethod(l.methods, req.verb);
      }
    }

    method Apply(l: Limiter, bucket: string, tick: Tick) returns (o: Outcome<Seen>)
      requires stack.Wired()
      modifies stack.store.server, stack.breaker, stack.cache
      ensures (stack.Value(), o) == Ask(stack.cfg, old(stack.Value()), Turn(l, tick), bucket)
    {
      var a := stack.Call(Event(tick.now, l.CallFor(bucket)), tick.fault);
      o := ReadAnswer(a);
    }

    /** What one answer does to the decision, and whether it ends the walk. */
    method Weigh(d: Decision, l: Limiter, o: Outcome<Seen>) returns (next: Decision, stop: bool)
      ensures next == Judge(d, l, o) && stop == VerdictOf(l, o).VerdictBlocked?
    {
      next, stop := d, false;
      if o.Err? {
        next := next.(evaluations := next.evaluations + [Evaluation(l.name, VerdictFailedOpen)]);
      } else if o.value.blocked && l.dryRun {
        next := next.(evaluations := next.evaluations + [Evaluation(l.name, VerdictWouldBlock)]);
        if !next.blocked {
          next := next.(blocked := true, dryRun := true, limiter := l.name, count := o.value.count, retryAfter := o.value.retryAfter);
        }
      } else if o.value.blocked {
        next := next.(blocked := true, dryRun := false, limiter := l.name, count := o.value.count,
                      retryAfter := o.value.retryAfter, adviseRetryAfter := l.adviseRetryAfter,
                      evaluations := next.evaluations + [Evaluation(l.name, VerdictBlocked)]);
        stop := true;
      } else {
        next := next.(evaluations := next.evaluations + [Evaluation(l.name, VerdictAllowed)]);
      }
    }

    method Evaluate(req: Request, ticks: seq<Tick>) returns (d: Decision)
      requires stack.Wired() && |ticks| == |limiters|
      modifies stack.store.server, stack.breaker, stack.cache
      ensures
        var w := Walk(stack.cfg, req, Turns(limiters, ticks), old(stack.Value()));
        d == w.decision && stack.Value() == w.layers
    {
      d := UNDECIDED;
      ghost var turns, start := Turns(limiters, ticks), stack.Value();
      assert Walk(stack.cfg, req, turns[..0], start) == Progress(start, UNDECIDED, false);
      hide Walk, Ask, Judge, VerdictOf, Turns;
      for i := 0 to |limiters|
        invariant Walk(stack.cfg, req, turns[..i], start) == Progress(stack.Value(), d, false)
      {
        assert Init(turns[..i + 1]) == turns[..i] && Last(turns[..i + 1]) == turns[i];
        WalkStep(stack.cfg, req, turns[..i + 1], start);
        var l := limiters[i];
        var applies := Applies(l, req);
        if !applies || !l.Active() || !l.keyer(req).Keyed? {
          continue;
        }
        var o := Apply(l, l.keyer(req).bucket, ticks[i]);
        var stop: bool;
        d, stop := Weigh(d, l, o);
        if stop {
          StoppedStays(stack.cfg, req, turns, start, i + 1);
          return;
        }
      }
      assert turns[..|limiters|] == turns;
    }
  }

  lemma {:induction false} StoppedStays(cfg: Config, req: Request, turns: seq<Turn>, s: Layers, n: nat)
    requires n <= |turns| && Walk(cfg, req, turns[..n], s).stopped
    ensures Walk(cfg, req, turns, s) == Walk(cfg, req, turns[..n], s)
  {
    if n == |turns| {
      assert turns[..n] == turns;
    } else {
      assert Init(turns)[..n] == turns[..n];
      StoppedStays(cfg, req, Init(turns), s, n);
    }
  }

  /** One more turn of the walk. */
  lemma WalkStep(cfg: Config, req: Request, turns: seq<Turn>, s: Layers)
    requires turns != []
    ensures
      var w, t := Walk(cfg, req, Init(turns), s), Last(turns);
      var b := t.limiter.Consulted(req);
      Walk(cfg, req, turns, s) ==
      if w.stopped || b.None? then w
      else
        var (s', o) := Ask(cfg, w.layers, t, b.value);
        Progress(s', Judge(w.decision, t.limiter, o), VerdictOf(t.limiter, o).VerdictBlocked?)
  {
    hide Ask, Limiter.Consulted, Judge, VerdictOf;
  }

  // ---------------------------------------------------------------- what a decision means

  /** The layers if every limiter were asked and nothing stopped the walk. */
  function Free(cfg: Config, req: Request, turns: seq<Turn>, s: Layers): Layers {
    if turns == [] then s
    else
      var s', t := Free(cfg, req, Init(turns), s), Last(turns);
      var b := t.limiter.Consulted(req);
      if b.None? then s' else Ask(cfg, s', t, b.value).0
  }

  /** What the i-th limiter is told in that complete evaluation; None when it has no say. */
  function Told(cfg: Config, req: Request, turns: seq<Turn>, s: Layers, i: nat): Option<Outcome<Seen>>
    requires i < |turns|
  {
    var b := turns[i].limiter.Consulted(req);
    if b.None? then None else Some(Ask(cfg, Free(cfg, req, turns[..i], s), turns[i], b.value).1)
  }

  /** The i-th limiter enforces and was told that the bucket is blocked. */
  predicate Enforces(cfg: Config, req: Request, turns: seq<Turn>, s: Layers, i: nat)
    requires i < |turns|
  {
    var o := Told(cfg, req, turns, s, i);
    o.Some? && o.value.Ok? && o.value.value.blocked && !turns[i].limiter.dryRun
  }

  /** The verdicts of the limiters that have a say, in order. */
  function Verdicts(cfg: Config, req: Request, turns: seq<Turn>, s: Layers): seq<Evaluation> {
    if turns == [] then []
    else
      var o, l := Told(cfg, req, turns, s, |turns| - 1), Last(turns).limiter;
      Verdicts(cfg, req, Init(turns), s) + if o.None? then [] else [Evaluation(l.name, VerdictOf(l, o.value))]
  }

  lemma ToldInit(cfg: Config, req: Request, turns: seq<Turn>, s: Layers, i: nat)
    requires turns != [] && i < |turns| - 1
    ensures Told(cfg, req, turns, s, i) == Told(cfg, req, Init(turns), s, i)
    ensures Enforces(cfg, req, turns, s, i) == Enforces(cfg, req, Init(turns), s, i)
  {
    assert Init(turns)[..i] == turns[..i];
  }

  /** The first limiter that enforces a block, if any. */
  function First(cfg: Config, req: Request, turns: seq<Turn>, s: Layers): (f: Option<nat>)
    ensures f.None? ==> forall j :: 0 <= j < |turns| ==> !Enforces(cfg, req, turns, s, j)
    ensures f.Some? ==> f.value < |turns| && Enforces(cfg, req, turns, s, f.value)
    ensures f.Some? ==> forall j :: 0 <= j < f.value ==> !Enforces(cfg, req, turns, s, j)
  {
    if turns == [] then None
    else
      var f, n := First(cfg, req, Init(turns), s), |turns| - 1;
      assert forall j :: 0 <= j < n ==> Enforces(cfg, req, turns, s, j) == Enforces(cfg, req, Init(turns), s, j) by {
        hide Enforces;
        forall j | 0 <= j < n ensures Enforces(cfg, req, turns, s, j) == Enforces(cfg, req, Init(turns), s, j) {
          ToldInit(cfg, req, turns, s, j);
        }
      }
      if f.Some? then f else if Enforces(cfg, req, turns, s, n) then Some(n) else None
  }

  /**
   * The meaning of a decision, whatever faults, open circuits and cache contents: it rejects exactly
   * when some limiter, in a complete evaluation, enforces a block; then it is that evaluation cut off
   * right after the first of them, and names that limiter and its answer.
   */
  lemma {:induction false} WalkIsTruncation(cfg: Config, req: Request, turns: seq<Turn>, s: Layers)
    ensures
      var w, f := Walk(cfg, req, turns, s), First(cfg, req, turns, s);
      && (w.decision.Rejected() <==> f.Some?) && (w.stopped <==> f.Some?)
      && (f.None? ==> w.layers == Free(cfg, req, turns, s) && w.decision.evaluations == Verdicts(cfg, req, turns, s))
      && (f.Some? ==>
            && w.layers == Free(cfg, req, turns[..f.value + 1], s)
            && w.decision.evaluations == Verdicts(cfg, req, turns[..f.value + 1], s)
            && Names(w.decision, turns[f.value].limiter, Told(cfg, req, turns, s, f.value).value.value))
  {
    if turns == [] {
    } else {
      hide Walk, Free, Verdicts, Told, Enforces, Names, First;
      WalkIsTruncation(cfg, req, Init(turns), s);
      FirstStep(cfg, req, turns, s);
      if First(cfg, req, Init(turns), s).Some? {
        StoppedStep(cfg, req, turns, s);
      } else {
        TruncationStep(cfg, req, turns, s);
        assert turns[..|turns|] == turns;
      }
    }
  }

  lemma FirstStep(cfg: Config, req: Request, turns: seq<Turn>, s: Layers)
    requires turns != []
    ensures
      var f, n := First(cfg, req, Init(turns), s), |turns| - 1;
      First(cfg, req, turns, s) == if f.Some? then f else if Enforces(cfg, req, turns, s, n) then Some(n) else None
  {
    hide Enforces;
  }

  /** Once stopped, the last turn changes nothing, and the first enforcer reads the same. */
  lemma StoppedStep(cfg: Config, req: Request, turns: seq<Turn>, s: Layers)
    requires turns != [] && Walk(cfg, req, Init(turns), s).stopped && First(cfg, req, Init(turns), s).Some?
    ensures Walk(cfg, req, turns, s) == Walk(cfg, req, Init(turns), s)
    ensures
      var i := First(cfg, req, Init(turns), s).value;
      turns[..i + 1] == Init(turns)[..i + 1] && Told(cfg, req, turns, s, i) == Told(cfg, req, Init(turns), s, i)
  {
    hide First, Told;
    ToldInit(cfg, req, turns, s, First(cfg, req, Init(turns), s).value);
  }

  /** The decision reports this limiter and this answer. */
  predicate Names(d: Decision, l: Limiter, o: Seen) {
    && d.Rejected() && d.limiter == l.name && d.count == o.count && d.retryAfter == o.retryAfter
    && d.adviseRetryAfter == l.adviseRetryAfter
  }

  lemma TruncationStep(cfg: Config, req: Request, turns: seq<Turn>, s: Layers)
    requires turns != [] && !Walk(cfg, req, Init(turns), s).stopped
    requires Walk(cfg, req, Init(turns), s).layers == Free(cfg, req, Init(turns), s)
    requires Walk(cfg, req, Init(turns), s).decision.evaluations == Verdicts(cfg, req, Init(turns), s)
    requires !Walk(cfg, req, Init(turns), s).decision.Rejected()
    ensures
      var w, n := Walk(cfg, req, turns, s), |turns| - 1;
      && w.layers == Free(cfg, req, turns, s) && w.decision.evaluations == Verdicts(cfg, req, turns, s)
      && (w.stopped <==> Enforces(cfg, req, turns, s, n))
      && (!w.stopped ==> !w.decision.Rejected())
      && (w.stopped ==> Names(w.decision, turns[n].limiter, Told(cfg, req, turns, s, n).value.value))
  {
    hide Ask, Limiter.Consulted;
    assert turns[..|turns| - 1] == Init(turns);
  }

  /** VerdictBlocked appears exactly when the request is rejected, and only as the last evaluation. */
  lemma {:induction false} BlockedOnlyLast(cfg: Config, req: Request, turns: seq<Turn>, s: Layers)
    ensures
      var w := Walk(cfg, req, turns, s);
      var d, evals := w.decision, w.decision.evaluations;
      && (forall i :: 0 <= i < |evals| && evals[i].verdict.VerdictBlocked? ==> d.Rejected() && i == |evals| - 1)
      && (d.Rejected() ==> evals != [] && evals[|evals| - 1] == Evaluation(d.limiter, VerdictBlocked))
      && (w.stopped <==> d.Rejected())
  {
    if turns == [] {
    } else {
      hide Ask, Limiter.Consulted;
      BlockedOnlyLast(cfg, req, Init(turns), s);
    }
  }

  // ---------------------------------------------------------------- rejections are true

  predicate ValidTurns(turns: seq<Turn>) {
    forall i :: 0 <= i < |turns| ==> ValidName(turns[i].limiter.name)
  }

  lemma AskBacked(cfg: Config, s: Layers, t: Turn, b: string)
    requires ValidName(t.limiter.name) && t.limiter.Active() && Backed(s.entries, s.db, cfg.prefix)
    ensures
      var (s', o) := Ask(cfg, s, t, b);
      && Backed(s'.entries, s'.db, cfg.prefix)
      && (o.Ok? && o.value.blocked ==> Refused(StoreStep(s.db, cfg.prefix, Event(t.tick.now, t.limiter.CallFor(b))).1))
  {
    hide StackStep, StoreStep, Backed;
    var e := Event(t.tick.now, t.limiter.CallFor(b));
    BackedUnderFaults(cfg, s, e, t.tick.fault);
    if Refused(StackStep(cfg, s, e, t.tick.fault).1) {
      RefusalIsTrue(cfg, s, e, t.tick.fault);
    }
  }

  lemma {:induction false} FreeBacked(cfg: Config, req: Request, turns: seq<Turn>, s: Layers)
    requires ValidTurns(turns) && Backed(s.entries, s.db, cfg.prefix)
    ensures
      var s' := Free(cfg, req, turns, s);
      Backed(s'.entries, s'.db, cfg.prefix)
  {
    if turns == [] {
    } else {
      hide Ask, Backed;
      FreeBacked(cfg, req, Init(turns), s);
      var t := Last(turns);
      var b := t.limiter.Consulted(req);
      if b.Some? {
        AskBacked(cfg, Free(cfg, req, Init(turns), s), t, b.value);
      }
    }
  }

  /** One request and the turns its evaluation takes. */
  datatype Visit = Visit(req: Request, turns: seq<Turn>)

  /** What one replica's layers live through: its own requests and sweeps, and the scripts of other replicas. */
  datatype Happening = Evaluated(visit: Visit) | Swept(now: int) | Elsewhere(event: Event)

  function Happen(cfg: Config, s: Layers, h: Happening): Layers {
    match h
    case Evaluated(v) => Walk(cfg, v.req, v.turns, s).layers
    case Swept(now) => s.(entries := BlockCache.SweepStep(s.entries, now))
    case Elsewhere(e) => s.(db := StoreStep(s.db, cfg.prefix, e).0)
  }

  function LayersFrom(cfg: Config, s: Layers, history: seq<Happening>): Layers {
    if history == [] then s
    else Happen(cfg, LayersFrom(cfg, s, history[..|history| - 1]), history[|history| - 1])
  }

  const START := Layers(map[], Breaker.CLOSED, map[], 0)

  /** The layers after a history, from an empty store, cache and circuit. */
  function LayersAfter(cfg: Config, history: seq<Happening>): Layers {
    LayersFrom(cfg, START, history)
  }

  /** Configured limiters here, and calls of configured limiters elsewhere. */
  predicate ValidHappening(h: Happening) {
    match h
    case Evaluated(v) => ValidTurns(v.turns)
    case Swept(_) => true
    case Elsewhere(e) => ValidCall(e.call)
  }

  predicate ValidHistory(history: seq<Happening>) {
    forall i :: 0 <= i < |history| ==> ValidHappening(history[i])
  }

  lemma WalkBacked(cfg: Config, req: Request, turns: seq<Turn>, s: Layers)
    requires ValidTurns(turns) && Backed(s.entries, s.db, cfg.prefix)
    ensures
      var s' := Walk(cfg, req, turns, s).layers;
      Backed(s'.entries, s'.db, cfg.prefix)
  {
    hide Walk, Free, Backed, Ask;
    WalkIsTruncation(cfg, req, turns, s);
    var f := First(cfg, req, turns, s);
    FreeBacked(cfg, req, if f.Some? then turns[..f.value + 1] else turns, s);
  }

  lemma HappenBacked(cfg: Config, s: Layers, h: Happening)
    requires ValidHappening(h) && Backed(s.entries, s.db, cfg.prefix)
    ensures
      var s' := Happen(cfg, s, h);
      Backed(s'.entries, s'.db, cfg.prefix)
  {
    match h {
      case Evaluated(v) =>
        hide Walk, Backed;
        WalkBacked(cfg, v.req, v.turns, s);
      case Swept(_) =>
      case Elsewhere(e) =>
        hide StoreStep, Backed;
        BackedStep(s.entries, s.db, cfg.prefix, e);
    }
  }

  lemma {:induction false} AfterBacked(cfg: Config, history: seq<Happening>)
    requires ValidHistory(history)
    ensures
      var s := LayersAfter(cfg, history);
      Backed(s.entries, s.db, cfg.prefix)
  {
    if history == [] {
    } else {
      hide Happen, Backed, ValidHappening;
      AfterBacked(cfg, history[..|history| - 1]);
      HappenBacked(cfg, LayersAfter(cfg, history[..|history| - 1]), history[|history| - 1]);
    }
  }

  /**
   * Full stack: after any history of requests, sweeps and other replicas' scripts, with any faults,
   * breaker and cache settings, a rejected request names the first limiter that enforces a block, and
   * at that limiter's turn the shared store itself refuses the call. No error, open circuit or stale
   * cache entry ever rejects.
   */
  lemma RejectionsAreTrue(cfg: Config, history: seq<Happening>, v: Visit)
    requires ValidHistory(history) && ValidTurns(v.turns)
    requires Walk(cfg, v.req, v.turns, LayersAfter(cfg, history)).decision.Rejected()
    ensures
      var s := LayersAfter(cfg, history);
      var d, f := Walk(cfg, v.req, v.turns, s).decision, First(cfg, v.req, v.turns, s);
      && f.Some? && d.limiter == v.turns[f.value].limiter.name
      && var t, b := v.turns[f.value], v.turns[f.value].limiter.Consulted(v.req);
         && b.Some? && !t.limiter.dryRun
         && Refused(StoreStep(Free(cfg, v.req, v.turns[..f.value], s).db, cfg.prefix,
                              Event(t.tick.now, t.limiter.CallFor(b.value))).1)
  {
    hide Walk, Free, Backed, Ask, StoreStep, LayersAfter;
    var s := LayersAfter(cfg, history);
    AfterBacked(cfg, history);
    WalkIsTruncation(cfg, v.req, v.turns, s);
    var i := First(cfg, v.req, v.turns, s).value;
    FreeBacked(cfg, v.req, v.turns[..i], s);
    AskBacked(cfg, Free(cfg, v.req, v.turns[..i], s), v.turns[i], v.turns[i].limiter.Consulted(v.req).value);
  }
}
