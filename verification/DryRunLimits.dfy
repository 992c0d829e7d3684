/**
 * Where dry-run limiters do interfere. Two settings make limiters share something that a dry-run call
 * can use up: the failures that open the circuit, and the capacity of the cache. This module shows
 * that there is nothing else.
 */
module DryRunLimits {
  import opened Prelude
  import opened Store
  import opened StorageKeys
  import opened Redis
  import opened StoreRuns
  import opened BlockCache
  import Breaker
  import opened Stack
  import opened Engine
  import opened EngineTransparency
  import opened DryRun
  import Paths

  /** One request after one history gets the response it would get without the dry-run limiters. */
  ghost predicate ErasedAlike(cfg: Config, history: seq<Happening>, v: Visit, dry: set<string>) {
    var w := Walk(cfg, v.req, v.turns, LayersAfter(cfg, history));
    var w' := Walk(cfg, v.req, Enforcing(v.turns), LayersAfter(cfg, EraseHistory(history, dry)));
    SameResponse(w.decision, w'.decision)
  }

  predicate Admissible(history: seq<Happening>, v: Visit, dry: set<string>) {
    SeparatedHistory(history, dry) && Separated(v.turns, dry)
  }

  predicate Answering(history: seq<Happening>, v: Visit) {
    HealthyHistory(history) && HealthyTurns(v.turns)
  }

  // ---------------------------------------------------------------- two limiters on two paths

  /** A limiter for one path that counts requests by their body. */
  ghost predicate ByBody(l: Limiter, name: string, path: string, dry: bool) {
    && l.name == name && l.paths == [path] && l.methods == [] && l.dryRun == dry
    && forall req: Request :: l.keyer(req) == Keyed(req.body)
  }

  /** A dry-run limiter and an enforcing one, of the same algorithm. */
  datatype Rig = Rig(d: Limiter, e: Limiter)
  {
    ghost predicate Valid() {
      && ByBody(d, "d", "/d", true) && ByBody(e, "e", "/e", false)
      && d.Active() && d.rule == e.rule && d.bucket == e.bucket
    }
  }

  const DRY: set<string> := {"d"}

  /** A request to one of the paths, at instant 0. */
  function At(rig: Rig, path: string, body: string, fault: Fault): Visit {
    Visit(Request(path, "GET", map[], map[], body), [Turn(rig.d, Tick(0, fault)), Turn(rig.e, Tick(0, fault))])
  }

  /** A slash and a small letter. */
  predicate ShortPath(path: string) {
    |path| == 2 && path[0] == '/' && 'a' <= path[1] <= 'z'
  }

  lemma ShortPathIsPlain(path: string)
    requires ShortPath(path)
    ensures Paths.Lower(path) == path && Paths.NormalisePath(path) == path && !HasSuffix(path, "/*")
  {
    assert path[0..] == path;
  }

  lemma PathsApart(path: string, other: string)
    requires ShortPath(path) && ShortPath(other)
    ensures Paths.PathInScope([path], other) <==> path == other
  {
    ShortPathIsPlain(path);
    ShortPathIsPlain(other);
    hide ShortPath, Paths.Lower, Paths.NormalisePath, HasSuffix;
    assert Paths.PatternMatches([path][0], other) <==> path == other;
  }

  lemma AskedByPath(l: Limiter, name: string, path: string, dry: bool, req: Request)
    requires ByBody(l, name, path, dry) && l.Active()
    ensures l.Consulted(req) == if Paths.PathInScope([path], req.path) then Some(req.body) else None
  {
    hide Paths.PathInScope;
  }

  /** On its own path a limiter is asked, on the other's it is not. */
  lemma OnePathEach(rig: Rig, body: string, fault: Fault)
    requires rig.Valid()
    ensures rig.d.Consulted(At(rig, "/d", body, fault).req) == Some(body)
    ensures rig.e.Consulted(At(rig, "/d", body, fault).req) == None
    ensures rig.d.Consulted(At(rig, "/e", body, fault).req) == None
    ensures rig.e.Consulted(At(rig, "/e", body, fault).req) == Some(body)
  {
    hide Paths.PathInScope, Limiter.Consulted;
    assert "/d"[1] != "/e"[1];
    PathsApart("/d", "/d");
    PathsApart("/d", "/e");
    PathsApart("/e", "/d");
    PathsApart("/e", "/e");
    var x, y := At(rig, "/d", body, fault).req, At(rig, "/e", body, fault).req;
    AskedByPath(rig.d, "d", "/d", true, x);
    AskedByPath(rig.d, "d", "/d", true, y);
    AskedByPath(rig.e, "e", "/e", false, x);
    AskedByPath(rig.e, "e", "/e", false, y);
  }

  lemma RigSeparated(rig: Rig, path: string, body: string, fault: Fault)
    requires rig.Valid()
    ensures
      var turns := At(rig, path, body, fault).turns;
      Separated(turns, DRY) && Enforcing(turns) == [turns[1]] && (fault.Healthy? ==> HealthyTurns(turns))
  {
    var turns := At(rig, path, body, fault).turns;
    var first := [turns[0]];
    assert Init(turns) == first && Init(first) == [];
    assert Enforcing(first) == Enforcing(Init(first)) + [] == [];
    assert Enforcing(turns) == Enforcing(Init(turns)) + [Last(turns)];
    assert ValidName("d") && ValidName("e");
  }

  lemma WalkOne(cfg: Config, req: Request, t: Turn, s: Layers)
    ensures
      var b := t.limiter.Consulted(req);
      Walk(cfg, req, [t], s) ==
      if b.None? then Progress(s, UNDECIDED, false)
      else
        var (s', o) := Ask(cfg, s, t, b.value);
        Progress(s', Judge(UNDECIDED, t.limiter, o), VerdictOf(t.limiter, o).VerdictBlocked?)
  {
    hide Ask, Judge, VerdictOf, Limiter.Consulted;
    WalkStep(cfg, req, [t], s);
    assert Init([t]) == [];
  }

  /** A request on the dry-run path: one call, or none once the limiter is gone. */
  lemma DryVisit(cfg: Config, rig: Rig, body: string, fault: Fault, s: Layers)
    requires rig.Valid()
    ensures
      var h := Evaluated(At(rig, "/d", body, fault));
      && Happen(cfg, s, h) == StackStep(cfg, s, Event(0, rig.d.CallFor(body)), fault).0
      && LayersFrom(cfg, s, Erase(h, DRY)) == s
  {
    hide StackStep, Judge, VerdictOf, Limiter.Consulted, LayersFrom;
    var v := At(rig, "/d", body, fault);
    OnePathEach(rig, body, fault);
    RigSeparated(rig, "/d", body, fault);
    WalkStep(cfg, v.req, v.turns, s);
    assert Init(v.turns) == [v.turns[0]];
    WalkOne(cfg, v.req, v.turns[0], s);
    WalkOne(cfg, v.req, v.turns[1], s);
    hide Walk;
    LayersOfOne(cfg, s, Evaluated(EraseVisit(v)));
  }

  /** A request on the enforcing path: one call, the same with and without the dry-run limiter. */
  lemma EnforcedVisit(cfg: Config, rig: Rig, body: string, fault: Fault, s: Layers)
    requires rig.Valid()
    ensures
      var v := At(rig, "/e", body, fault);
      var (s', a) := StackStep(cfg, s, Event(0, rig.e.CallFor(body)), fault);
      && Happen(cfg, s, Evaluated(v)) == s' && LayersFrom(cfg, s, Erase(Evaluated(v), DRY)) == s'
      && Walk(cfg, v.req, v.turns, s).decision == Judge(UNDECIDED, rig.e, ReadAnswer(a))
      && Walk(cfg, v.req, Enforcing(v.turns), s).decision == Judge(UNDECIDED, rig.e, ReadAnswer(a))
  {
    hide StackStep, Judge, VerdictOf, Limiter.Consulted, LayersFrom;
    var v := At(rig, "/e", body, fault);
    OnePathEach(rig, body, fault);
    RigSeparated(rig, "/e", body, fault);
    WalkStep(cfg, v.req, v.turns, s);
    assert Init(v.turns) == [v.turns[0]];
    WalkOne(cfg, v.req, v.turns[0], s);
    WalkOne(cfg, v.req, v.turns[1], s);
    hide Walk;
    LayersOfOne(cfg, s, Evaluated(EraseVisit(v)));
  }

  lemma {:induction false} EraseConcat(a: seq<Happening>, b: seq<Happening>, dry: set<string>)
    ensures EraseHistory(a + b, dry) == EraseHistory(a, dry) + EraseHistory(b, dry)
  {
    hide Erase;
    if b == [] {
      assert a + b == a;
    } else {
      assert (a + b)[..|a + b| - 1] == a + b[..|b| - 1];
      EraseConcat(a, b[..|b| - 1], dry);
    }
  }

  lemma EraseOne(h: Happening, dry: set<string>)
    ensures EraseHistory([h], dry) == Erase(h, dry)
  {
    assert [h][..0] == [];
  }

  /** The layers after a history, with the dry-run limiter and without it. */
  ghost function With(cfg: Config, history: seq<Happening>): Layers {
    LayersAfter(cfg, history)
  }

  ghost function Without(cfg: Config, history: seq<Happening>): Layers {
    LayersAfter(cfg, EraseHistory(history, DRY))
  }

  /** The rig's requests keep a history admissible. */
  lemma Appended(rig: Rig, history: seq<Happening>, path: string, body: string, fault: Fault)
    requires rig.Valid()
    ensures
      var longer := history + [Evaluated(At(rig, path, body, fault))];
      && (SeparatedHistory(history, DRY) ==> SeparatedHistory(longer, DRY))
      && (HealthyHistory(history) && fault.Healthy? ==> HealthyHistory(longer))
  {
    hide Separated, HealthyTurns, At;
    RigSeparated(rig, path, body, fault);
  }

  lemma AppendOne(cfg: Config, history: seq<Happening>, h: Happening)
    ensures With(cfg, history + [h]) == Happen(cfg, With(cfg, history), h)
    ensures Without(cfg, history + [h]) == LayersFrom(cfg, Without(cfg, history), Erase(h, DRY))
  {
    hide Happen, LayersFrom, EraseHistory, Erase;
    LayersConcat(cfg, START, history, [h]);
    LayersOfOne(cfg, With(cfg, history), h);
    EraseConcat(history, [h], DRY);
    EraseOne(h, DRY);
    LayersConcat(cfg, START, EraseHistory(history, DRY), Erase(h, DRY));
  }

  lemma AppendDry(cfg: Config, rig: Rig, history: seq<Happening>, body: string, fault: Fault)
    requires rig.Valid()
    ensures
      var longer := history + [Evaluated(At(rig, "/d", body, fault))];
      && With(cfg, longer) == StackStep(cfg, With(cfg, history), Event(0, rig.d.CallFor(body)), fault).0
      && Without(cfg, longer) == Without(cfg, history)
  {
    hide *;
    AppendOne(cfg, history, Evaluated(At(rig, "/d", body, fault)));
    DryVisit(cfg, rig, body, fault, With(cfg, history));
    DryVisit(cfg, rig, body, fault, Without(cfg, history));
  }

  lemma AppendEnforced(cfg: Config, rig: Rig, history: seq<Happening>, body: string, fault: Fault)
    requires rig.Valid()
    ensures
      var longer, e := history + [Evaluated(At(rig, "/e", body, fault))], Event(0, rig.e.CallFor(body));
      && With(cfg, longer) == StackStep(cfg, With(cfg, history), e, fault).0
      && Without(cfg, longer) == StackStep(cfg, Without(cfg, history), e, fault).0
  {
    hide *;
    AppendOne(cfg, history, Evaluated(At(rig, "/e", body, fault)));
    EnforcedVisit(cfg, rig, body, fault, With(cfg, history));
    EnforcedVisit(cfg, rig, body, fault, Without(cfg, history));
  }

  /** What the enforcing limiter makes of an answer. */
  function Response(rig: Rig, a: Answer): Decision {
    Judge(UNDECIDED, rig.e, ReadAnswer(a))
  }

  lemma FinalRequest(cfg: Config, rig: Rig, history: seq<Happening>, body: string, fault: Fault)
    requires rig.Valid()
    ensures
      var e := Event(0, rig.e.CallFor(body));
      ErasedAlike(cfg, history, At(rig, "/e", body, fault), DRY) <==>
      SameResponse(Response(rig, StackStep(cfg, With(cfg, history), e, fault).1),
                   Response(rig, StackStep(cfg, Without(cfg, history), e, fault).1))
  {
    hide StackStep, LayersAfter, EraseHistory, Enforcing, Walk, At, SameResponse, Judge, ReadAnswer;
    EnforcedVisit(cfg, rig, body, fault, With(cfg, history));
    EnforcedVisit(cfg, rig, body, fault, Without(cfg, history));
  }

  // ---------------------------------------------------------------- the circuit

  /** Dry-run requests whose calls are lost, after a request that takes the only token. */
  function Lost(rig: Rig, k: nat): seq<Happening> {
    if k == 0 then [Evaluated(At(rig, "/e", "k", Healthy))]
    else Lost(rig, k - 1) + [Evaluated(At(rig, "/d", "k", LostRequest))]
  }

  lemma LostTake(cfg: Config, s: Layers, key: Key, b: Bucket)
    requires cfg.threshold > 0 && !s.circuit.Open()
    ensures StackStep(cfg, s, Event(0, TakeCall(key, b)), LostRequest).0 ==
            s.(circuit := Breaker.RecordStep(s.circuit, cfg.threshold, cfg.cooldown, false, 0))
  {
  }

  /** The layers once the token is taken. */
  function TokenTaken(cfg: Config): Layers {
    StackStep(cfg, START, Event(0, TakeCall(Key("e", "k"), Bucket(1, 1))), Healthy).0
  }

  /** The second of two takes at once from a bucket of one token is refused. */
  lemma SecondTakeRefused(cfg: Config)
    ensures TokenTaken(cfg).circuit == Breaker.CLOSED
    ensures StackStep(cfg, TokenTaken(cfg), Event(0, TakeCall(Key("e", "k"), Bucket(1, 1))), Healthy).1
            == Taken(Ok(TakeResult(false, 0, SECOND)))
  {
    var b, key := Bucket(1, 1), Key("e", "k");
    var e := Event(0, TakeCall(key, b));
    var first := Some(Entry(Hash(0, 0), Some(IdleSpan(b) * MILLISECOND)));
    assert CeilDiv(1000, 1) == 1000;
    assert TakeCell(None, b, 0) == (first, Ok(TakeResult(true, 0, 0)));
    assert TakeCell(first, b, 0).1 == Ok(TakeResult(false, 0, SECOND));
    hide TakeCell;
    var db := StoreStep(map[], cfg.prefix, e).0;
    assert BucketOf(db, cfg.prefix, key) == first;
  }

  ghost predicate TokenRig(rig: Rig) {
    rig.Valid() && rig.d.bucket == Bucket(1, 1)
  }

  lemma TokenCalls(rig: Rig)
    requires TokenRig(rig)
    ensures rig.d.CallFor("k") == TakeCall(Key("d", "k"), Bucket(1, 1))
    ensures rig.e.CallFor("k") == TakeCall(Key("e", "k"), Bucket(1, 1))
  {
  }

  lemma NothingYet(cfg: Config)
    ensures With(cfg, []) == START && Without(cfg, []) == START && SeparatedHistory([], DRY) && HealthyHistory([])
  {
  }

  function Failures(cfg: Config, k: nat): Breaker.Circuit {
    Breaker.Circuit(k, if k == cfg.threshold then Some(cfg.cooldown) else None, false)
  }

  lemma OneMoreFailure(cfg: Config, k: nat)
    requires k < cfg.threshold
    ensures Breaker.RecordStep(Failures(cfg, k), cfg.threshold, cfg.cooldown, false, 0) == Failures(cfg, k + 1)
    ensures !Failures(cfg, k).Open() && Failures(cfg, 0) == Breaker.CLOSED
  {
  }

  /** As many as the threshold open the circuit; without the limiter they leave no trace. */
  lemma {:induction false} LostOpens(cfg: Config, rig: Rig, k: nat)
    requires TokenRig(rig) && 0 < cfg.threshold && k <= cfg.threshold
    ensures With(cfg, Lost(rig, k)) == TokenTaken(cfg).(circuit := Failures(cfg, k))
    ensures Without(cfg, Lost(rig, k)) == TokenTaken(cfg)
    ensures SeparatedHistory(Lost(rig, k), DRY)
  {
    hide StackStep, TokenTaken, With, Without, SeparatedHistory, At, Failures, Rig.Valid, Breaker.RecordStep, Limiter.CallFor;
    TokenCalls(rig);
    if k == 0 {
      NothingYet(cfg);
      SecondTakeRefused(cfg);
      OneMoreFailure(cfg, 0);
      assert Lost(rig, 0) == [] + [Evaluated(At(rig, "/e", "k", Healthy))];
      AppendEnforced(cfg, rig, [], "k", Healthy);
      Appended(rig, [], "/e", "k", Healthy);
      FirstIsTaken(cfg);
    } else {
      LostOpens(cfg, rig, k - 1);
      OneMoreFailure(cfg, k - 1);
      LostTake(cfg, With(cfg, Lost(rig, k - 1)), Key("d", "k"), Bucket(1, 1));
      AppendDry(cfg, rig, Lost(rig, k - 1), "k", LostRequest);
      Appended(rig, Lost(rig, k - 1), "/d", "k", LostRequest);
    }
  }

  lemma FirstIsTaken(cfg: Config)
    ensures TokenTaken(cfg) == StackStep(cfg, START, Event(0, TakeCall(Key("e", "k"), Bucket(1, 1))), Healthy).0
  {
  }

  lemma OpenRefuses(cfg: Config, s: Layers, key: Key, b: Bucket)
    requires cfg.threshold > 0 && s.circuit == Failures(cfg, cfg.threshold) && cfg.cooldown > 0
    ensures StackStep(cfg, s, Event(0, TakeCall(key, b)), Healthy).1 == Taken(Err)
  {
  }

  lemma RefusedOrLetThrough(rig: Rig, wait: int)
    requires rig.Valid()
    ensures !SameResponse(Response(rig, Taken(Err)), Response(rig, Taken(Ok(TakeResult(false, 0, wait)))))
  {
  }

  /**
   * With a breaker, lost dry-run calls open the circuit, and a request that the store would refuse is
   * let through.
   */
  lemma SharedCircuit(cfg: Config, rig: Rig)
    requires TokenRig(rig) && cfg.threshold > 0 && cfg.cooldown > 0
    ensures
      var v, history := At(rig, "/e", "k", Healthy), Lost(rig, cfg.threshold);
      Admissible(history, v, DRY) && !ErasedAlike(cfg, history, v, DRY)
  {
    hide StackStep, TokenTaken, With, Without, SeparatedHistory, At, Lost, Failures, ErasedAlike, Response, SameResponse,
         Separated, Rig.Valid, Limiter.CallFor;
    var history := Lost(rig, cfg.threshold);
    TokenCalls(rig);
    LostOpens(cfg, rig, cfg.threshold);
    OpenRefuses(cfg, With(cfg, history), Key("e", "k"), Bucket(1, 1));
    SecondTakeRefused(cfg);
    FinalRequest(cfg, rig, history, "k", Healthy);
    RefusedOrLetThrough(rig, SECOND);
    RigSeparated(rig, "/e", "k", Healthy);
  }

  // ---------------------------------------------------------------- the cache

  /** Two calls at once under a rule with limit one. */
  function Twice(cfg: Config, s: Layers, key: Key, rule: Rule): Layers {
    var e := Event(0, ConsumeCall(key, rule));
    StackStep(cfg, StackStep(cfg, s, e, Healthy).0, e, Healthy).0
  }

  function Marked(rule: Rule): Cell {
    Cell(None, Some(Entry(Marker, Some(Rounded(rule.block)))))
  }

  /** One call on a key: its cell changes as the script says, every other cell stays. */
  lemma CellsAfter(db: Db, prefix: string, key: Key, rule: Rule, now: int)
    requires ValidName(key.limiter) && rule.Valid()
    ensures
      var (db', a) := StoreStep(db, prefix, Event(now, ConsumeCall(key, rule)));
      var (c, answer) := DecideCell(CellOf(db, prefix, key), rule.limit, Rounded(rule.window), Rounded(rule.block), now);
      && CellOf(db', prefix, key) == c && a == Consumed(answer)
      && forall l: Key :: ValidName(l.limiter) && !SameStorage(l, key) ==> CellOf(db', prefix, l) == CellOf(db, prefix, l)
  {
    var e := Event(now, ConsumeCall(key, rule));
    var (c, _) := DecideCell(CellOf(db, prefix, key), rule.limit, Rounded(rule.window), Rounded(rule.block), now);
    PutCellGet(db, prefix, key, c);
    forall l: Key | ValidName(l.limiter) && !SameStorage(l, key)
      ensures CellOf(StoreStep(db, prefix, e).0, prefix, l) == CellOf(db, prefix, l)
    {
      StepFrame(db, prefix, e, l);
    }
  }

  /** A healthy miss on a closed circuit. */
  lemma Miss(cfg: Config, s: Layers, key: Key, rule: Rule)
    requires s.circuit == Breaker.CLOSED && key.String() !in s.entries
    requires Succeeded(StoreStep(s.db, cfg.prefix, Event(0, ConsumeCall(key, rule))).1)
    ensures
      var e := Event(0, ConsumeCall(key, rule));
      var (db, a) := StoreStep(s.db, cfg.prefix, e);
      StackStep(cfg, s, e, Healthy) == (Kept(cfg, s.(db := db), e, a), a)
  {
    hide StoreStep;
    MissedCall(cfg, s, Event(0, ConsumeCall(key, rule)), Healthy);
  }

  lemma CountThenBlock(rule: Rule)
    requires rule.Valid() && rule.limit == 1
    ensures
      var w, b := Rounded(rule.window), Rounded(rule.block);
      var counted := Cell(Some(Entry(Count(1), Some(w))), None);
      && DecideCell(Cell(None, None), 1, w, b, 0) == (counted, Ok(Result(false, 1, 0)))
      && DecideCell(counted, 1, w, b, 0) == (Marked(rule), Ok(Result(true, 2, b)))
      && DecideCell(Marked(rule), 1, w, b, 0) == (Marked(rule), Ok(Result(true, -1, b)))
  {
  }

  /** The second call sets the block, and the cache remembers it if there is room. */
  lemma TwiceBlocks(cfg: Config, s: Layers, key: Key, rule: Rule)
    requires cfg.cached && s.circuit == Breaker.CLOSED && key.String() !in s.entries && ValidName(key.limiter)
    requires CellOf(s.db, cfg.prefix, key) == Cell(None, None) && rule.Valid() && rule.limit == 1
    ensures
      var t := Twice(cfg, s, key, rule);
      && t.circuit == Breaker.CLOSED
      && t.entries == RememberStep(s.entries, key.String(), Rounded(rule.block), cfg.maxLen, cfg.maxTTL, 0)
      && CellOf(t.db, cfg.prefix, key) == Marked(rule)
      && forall l: Key :: ValidName(l.limiter) && !SameStorage(l, key) ==> CellOf(t.db, cfg.prefix, l) == CellOf(s.db, cfg.prefix, l)
  {
    hide StackStep, StoreStep, DecideCell, CellOf, SameStorage, ValidName, RememberStep, Marked;
    var e := Event(0, ConsumeCall(key, rule));
    CountThenBlock(rule);
    CellsAfter(s.db, cfg.prefix, key, rule, 0);
    Miss(cfg, s, key, rule);
    var s' := StackStep(cfg, s, e, Healthy).0;
    CellsAfter(s'.db, cfg.prefix, key, rule, 0);
    Miss(cfg, s', key, rule);
  }

  ghost predicate WindowRig(rig: Rig) {
    rig.Valid() && !rig.d.bucket.Valid() && rig.d.rule.Valid() && rig.d.rule.limit == 1
  }

  lemma WindowCalls(rig: Rig, body: string)
    requires WindowRig(rig)
    ensures rig.d.CallFor(body) == ConsumeCall(Key("d", body), rig.d.rule)
    ensures rig.e.CallFor(body) == ConsumeCall(Key("e", body), rig.d.rule)
  {
  }

  function Body(k: nat): string {
    seq(k, _ => 'x')
  }

  /** Dry-run requests that get k buckets blocked. */
  function Fill(rig: Rig, k: nat): seq<Happening> {
    if k == 0 then []
    else
      var h := Evaluated(At(rig, "/d", Body(k - 1), Healthy));
      Fill(rig, k - 1) + [h] + [h]
  }

  /** A key that k of them have not touched. */
  predicate Untouched(key: Key, k: nat) {
    ValidName(key.limiter) && !(key.limiter == "d" && |SanitizeBucket(key.bucket)| < k)
  }

  ghost predicate Filled(cfg: Config, s: Layers, k: nat) {
    && s.circuit == Breaker.CLOSED && |s.entries| == k
    && forall key: Key :: Untouched(key, k) ==> CellOf(s.db, cfg.prefix, key) == Cell(None, None) && key.String() !in s.entries
  }

  lemma BodyKey(k: nat)
    ensures ValidName("d") && Untouched(Key("d", Body(k)), k) && SanitizeBucket(Body(k)) == Body(k)
  {
    assert BraceFree(Body(k));
  }

  lemma FilledStep(cfg: Config, s: Layers, k: nat, rule: Rule)
    requires cfg.cached && k < cfg.maxLen && Filled(cfg, s, k) && rule.Valid() && rule.limit == 1
    ensures Filled(cfg, Twice(cfg, s, Key("d", Body(k)), rule), k + 1)
  {
    var key := Key("d", Body(k));
    BodyKey(k);
    assert Untouched(key, k);
    TwiceBlocks(cfg, s, key, rule);
    var t := Twice(cfg, s, key, rule);
    hide Twice, CellOf;
    assert t.entries.Keys == s.entries.Keys + {key.String()};
    forall l: Key | Untouched(l, k + 1) ensures CellOf(t.db, cfg.prefix, l) == Cell(None, None) && l.String() !in t.entries {
      assert Untouched(l, k);
      KeyStringInjective(l, key);
    }
  }

  lemma FilledAtFirst(cfg: Config)
    ensures Filled(cfg, START, 0)
  {
  }

  lemma TwoDry(cfg: Config, rig: Rig, history: seq<Happening>, body: string)
    requires WindowRig(rig)
    ensures
      var h := Evaluated(At(rig, "/d", body, Healthy));
      && With(cfg, history + [h] + [h]) == Twice(cfg, With(cfg, history), Key("d", body), rig.d.rule)
      && Without(cfg, history + [h] + [h]) == Without(cfg, history)
      && (SeparatedHistory(history, DRY) ==> SeparatedHistory(history + [h] + [h], DRY))
      && (HealthyHistory(history) ==> HealthyHistory(history + [h] + [h]))
  {
    hide StackStep, With, Without, SeparatedHistory, HealthyHistory, At, Limiter.CallFor, Rig.Valid;
    var h := Evaluated(At(rig, "/d", body, Healthy));
    WindowCalls(rig, body);
    AppendDry(cfg, rig, history, body, Healthy);
    AppendDry(cfg, rig, history + [h], body, Healthy);
    Appended(rig, history, "/d", body, Healthy);
    Appended(rig, history + [h], "/d", body, Healthy);
  }

  lemma {:induction false} FillFills(cfg: Config, rig: Rig, k: nat)
    requires WindowRig(rig) && cfg.cached && k <= cfg.maxLen
    ensures Filled(cfg, With(cfg, Fill(rig, k)), k) && Without(cfg, Fill(rig, k)) == START
    ensures SeparatedHistory(Fill(rig, k), DRY) && HealthyHistory(Fill(rig, k))
  {
    hide Twice, With, Without, SeparatedHistory, HealthyHistory, At, Filled, Rig.Valid, Body;
    if k == 0 {
      NothingYet(cfg);
      FilledAtFirst(cfg);
    } else {
      FillFills(cfg, rig, k - 1);
      TwoDry(cfg, rig, Fill(rig, k - 1), Body(k - 1));
      FilledStep(cfg, With(cfg, Fill(rig, k - 1)), k - 1, rig.d.rule);
    }
  }

  /** A full cache, then two requests that get the enforcing bucket blocked. */
  function FillAndBlock(cfg: Config, rig: Rig): seq<Happening>
    requires cfg.maxLen > 0
  {
    var h := Evaluated(At(rig, "/e", "k", Healthy));
    Fill(rig, cfg.maxLen) + [h] + [h]
  }

  lemma TwoEnforced(cfg: Config, rig: Rig, history: seq<Happening>)
    requires WindowRig(rig)
    ensures
      var h, key := Evaluated(At(rig, "/e", "k", Healthy)), Key("e", "k");
      && With(cfg, history + [h] + [h]) == Twice(cfg, With(cfg, history), key, rig.d.rule)
      && Without(cfg, history + [h] + [h]) == Twice(cfg, Without(cfg, history), key, rig.d.rule)
      && (SeparatedHistory(history, DRY) ==> SeparatedHistory(history + [h] + [h], DRY))
      && (HealthyHistory(history) ==> HealthyHistory(history + [h] + [h]))
  {
    hide StackStep, With, Without, SeparatedHistory, HealthyHistory, At, Limiter.CallFor, Rig.Valid;
    var h := Evaluated(At(rig, "/e", "k", Healthy));
    WindowCalls(rig, "k");
    AppendEnforced(cfg, rig, history, "k", Healthy);
    AppendEnforced(cfg, rig, history + [h], "k", Healthy);
    Appended(rig, history, "/e", "k", Healthy);
    Appended(rig, history + [h], "/e", "k", Healthy);
  }

  /** Blocked in the store; with the dry-run limiter not in the cache, without it in the cache. */
  lemma CachedOnOneSide(cfg: Config, rig: Rig)
    requires WindowRig(rig) && cfg.cached && cfg.maxLen > 0
    ensures
      var history, key, block := FillAndBlock(cfg, rig), Key("e", "k"), Rounded(rig.d.rule.block);
      var s, s' := With(cfg, history), Without(cfg, history);
      && SeparatedHistory(history, DRY) && HealthyHistory(history)
      && s.circuit == Breaker.CLOSED && key.String() !in s.entries && CellOf(s.db, cfg.prefix, key) == Marked(rig.d.rule)
      && s'.entries == map[key.String() := Trust(block, cfg.maxTTL)]
  {
    hide With, Without, SeparatedHistory, HealthyHistory, At, Rig.Valid, Twice, CellOf, Marked, Fill;
    var fill, key := Fill(rig, cfg.maxLen), Key("e", "k");
    FillFills(cfg, rig, cfg.maxLen);
    TwoEnforced(cfg, rig, fill);
    FilledAtFirst(cfg);
    assert ValidName("e") && Untouched(key, cfg.maxLen) && Untouched(key, 0);
    TwiceBlocks(cfg, With(cfg, fill), key, rig.d.rule);
    TwiceBlocks(cfg, START, key, rig.d.rule);
  }

  lemma HitOnOneSide(cfg: Config, s: Layers, s': Layers, key: Key, rule: Rule, fault: Fault)
    requires cfg.cached && rule.Valid() && rule.limit == 1 && ValidName(key.limiter)
    requires s.circuit == Breaker.CLOSED && key.String() !in s.entries && CellOf(s.db, cfg.prefix, key) == Marked(rule)
    requires s'.entries == map[key.String() := Trust(Rounded(rule.block), cfg.maxTTL)]
    ensures
      var e, block := Event(0, ConsumeCall(key, rule)), Rounded(rule.block);
      && StackStep(cfg, s', e, fault).1 == Consumed(Ok(Result(true, -1, Trust(block, cfg.maxTTL))))
      && (fault.LostRequest? ==> StackStep(cfg, s, e, fault).1 == Consumed(Err))
      && (fault.Healthy? ==> StackStep(cfg, s, e, fault).1 == Consumed(Ok(Result(true, -1, block))))
  {
    hide CellOf, DecideCell, StoreStep, Marked;
    CountThenBlock(rule);
    CellsAfter(s.db, cfg.prefix, key, rule, 0);
  }

  lemma ResponsesDiffer(rig: Rig, wait: int, other: int)
    requires rig.Valid()
    ensures !SameResponse(Response(rig, Consumed(Err)), Response(rig, Consumed(Ok(Result(true, -1, wait)))))
    ensures wait != other ==>
              !SameResponse(Response(rig, Consumed(Ok(Result(true, -1, wait)))), Response(rig, Consumed(Ok(Result(true, -1, other)))))
  {
  }

  /**
   * With a bounded cache, dry-run entries take the room, and a block that is not cached does not
   * survive a lost request: it is let through. Where nothing is lost the wait still differs, if the
   * cap on the trust is shorter than the block.
   */
  lemma SharedCapacity(cfg: Config, rig: Rig)
    requires WindowRig(rig) && cfg.cached && cfg.maxLen > 0
    ensures
      var history, lost, healthy := FillAndBlock(cfg, rig), At(rig, "/e", "k", LostRequest), At(rig, "/e", "k", Healthy);
      && Admissible(history, lost, DRY) && !ErasedAlike(cfg, history, lost, DRY)
      && Admissible(history, healthy, DRY) && Answering(history, healthy)
      && (0 < cfg.maxTTL < Rounded(rig.d.rule.block) ==> !ErasedAlike(cfg, history, healthy, DRY))
  {
    hide With, Without, SeparatedHistory, Separated, HealthyHistory, HealthyTurns, At, Rig.Valid, CellOf, Marked,
         FillAndBlock, ErasedAlike, StackStep, Response, SameResponse, Limiter.CallFor, Rounded;
    var history, key, block := FillAndBlock(cfg, rig), Key("e", "k"), Rounded(rig.d.rule.block);
    var s, s' := With(cfg, history), Without(cfg, history);
    CachedOnOneSide(cfg, rig);
    WindowCalls(rig, "k");
    assert ValidName("e");
    HitOnOneSide(cfg, s, s', key, rig.d.rule, LostRequest);
    HitOnOneSide(cfg, s, s', key, rig.d.rule, Healthy);
    FinalRequest(cfg, rig, history, "k", LostRequest);
    FinalRequest(cfg, rig, history, "k", Healthy);
    ResponsesDiffer(rig, Trust(block, cfg.maxTTL), block);
    ResponsesDiffer(rig, block, Trust(block, cfg.maxTTL));
    RigSeparated(rig, "/e", "k", LostRequest);
    RigSeparated(rig, "/e", "k", Healthy);
  }

  // ---------------------------------------------------------------- the exact conditions

  function BodyLimiter(name: string, path: string, dry: bool, rule: Rule, bucket: Bucket): Limiter {
    Limiter(name, rule, bucket, (req: Request) => Keyed(req.body), [path], [], dry, false)
  }

  function RigOf(rule: Rule, bucket: Bucket): Rig {
    Rig(BodyLimiter("d", "/d", true, rule, bucket), BodyLimiter("e", "/e", false, rule, bucket))
  }

  lemma RigOfIsValid(rule: Rule, bucket: Bucket)
    requires rule.Valid() || bucket.Valid()
    ensures RigOf(rule, bucket).Valid()
  {
  }

  ghost predicate AlwaysErased(cfg: Config) {
    forall history: seq<Happening>, v: Visit, dry: set<string> ::
      Admissible(history, v, dry) ==> ErasedAlike(cfg, history, v, dry)
  }

  ghost predicate ErasedWhileAnswering(cfg: Config) {
    forall history: seq<Happening>, v: Visit, dry: set<string> ::
      Admissible(history, v, dry) && Answering(history, v) ==> ErasedAlike(cfg, history, v, dry)
  }

  /** Whatever is lost: erasure holds of every history if and only if limiters share neither circuit nor capacity. */
  lemma AlwaysErasedExactly(cfg: Config)
    requires cfg.threshold > 0 ==> cfg.cooldown > 0
    ensures AlwaysErased(cfg) <==> cfg.threshold <= 0 && Unshared(cfg)
  {
    hide ErasedAlike;
    if cfg.threshold <= 0 && Unshared(cfg) {
      forall history: seq<Happening>, v: Visit, dry: set<string> | Admissible(history, v, dry) ensures ErasedAlike(cfg, history, v, dry) {
        ErasureIsAlike(cfg, history, v, dry);
      }
    } else if cfg.threshold > 0 {
      var rig := RigOf(Rule(0, 0, 0), Bucket(1, 1));
      RigOfIsValid(Rule(0, 0, 0), Bucket(1, 1));
      SharedCircuit(cfg, rig);
      hide Admissible;
      assert !AlwaysErased(cfg);
    } else {
      var rig := RigOf(Rule(1, SECOND, SECOND), Bucket(0, 0));
      RigOfIsValid(Rule(1, SECOND, SECOND), Bucket(0, 0));
      SharedCapacity(cfg, rig);
      hide Admissible;
      assert !AlwaysErased(cfg);
    }
  }

  lemma ErasureIsAlike(cfg: Config, history: seq<Happening>, v: Visit, dry: set<string>)
    requires Admissible(history, v, dry) && Unshared(cfg) && (cfg.threshold <= 0 || Answering(history, v))
    ensures ErasedAlike(cfg, history, v, dry)
  {
    hide Walk, SameResponse, LayersAfter, SeparatedHistory, Separated;
    DryRunErasure(cfg, history, v, dry);
  }

  /** While the store answers: the whole response survives if and only if limiters do not share capacity. */
  lemma ErasedWhileAnsweringExactly(cfg: Config)
    requires cfg.cached ==> cfg.maxTTL > 0
    ensures ErasedWhileAnswering(cfg) <==> Unshared(cfg)
  {
    hide ErasedAlike;
    if Unshared(cfg) {
      forall history: seq<Happening>, v: Visit, dry: set<string> | Admissible(history, v, dry) && Answering(history, v)
        ensures ErasedAlike(cfg, history, v, dry)
      {
        ErasureIsAlike(cfg, history, v, dry);
      }
    } else {
      var rule := Rule(1, SECOND, (cfg.maxTTL + 1) * SECOND);
      assert Rounded(rule.block) > cfg.maxTTL;
      RigOfIsValid(rule, Bucket(0, 0));
      SharedCapacity(cfg, RigOf(rule, Bucket(0, 0)));
      hide Admissible, Answering;
      assert !ErasedWhileAnswering(cfg);
    }
  }
}
