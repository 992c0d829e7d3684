/**
 * From the limiter file to the fleet: what configuration builds meets the hypotheses of the other
 * results, so they hold of every deployment of every file that passes validation.
 */
module Deployment {
  import opened Prelude
  import opened Store
  import opened StorageKeys
  import opened StoreRuns
  import opened Engine
  import Stack
  import Config
  import DryRun
  import DryRunLimits
  import Normaliser
  import Paths
  import Fleet
  import FleetBounds
  import WindowRuns
  import BucketRuns

  /** A valid file and the limiters it is built into. */
  datatype Site = Site(file: Config.File, stat: Config.Stat, secret: string, extract: Config.Extract, limiters: seq<Limiter>)
  {
    ghost predicate Valid() {
      Config.ValidFile(file, stat) && limiters == Config.Kept(file.limiters, secret, extract)
    }
  }

  predicate Usable(limiters: seq<Limiter>) {
    && (forall i :: 0 <= i < |limiters| ==> Config.Sound(limiters[i]))
    && (forall i, j :: 0 <= i < j < |limiters| ==> limiters[i].name != limiters[j].name)
  }

  lemma BuiltIsUsable(site: Site)
    requires site.Valid()
    ensures Usable(site.limiters)
  {
    var _ := Config.BuiltLimiters(site.file, site.secret, site.extract, site.stat);
  }

  // ---------------------------------------------------------------- one engine

  function DryNames(limiters: seq<Limiter>): set<string> {
    set i | 0 <= i < |limiters| && limiters[i].dryRun :: limiters[i].name
  }

  /** A store call that an engine with these limiters makes. */
  predicate FromEngine(call: Call, limiters: seq<Limiter>) {
    exists i :: 0 <= i < |limiters| && call == limiters[i].CallFor(call.key.bucket)
  }

  /** The engine evaluates these limiters on a request. */
  ghost predicate OfEngine(v: Visit, limiters: seq<Limiter>) {
    |v.turns| == |limiters| && forall j :: 0 <= j < |limiters| ==> v.turns[j].limiter == limiters[j]
  }

  /** A replica of the site, among others. */
  ghost predicate OfSite(h: Happening, limiters: seq<Limiter>) {
    match h
    case Evaluated(v) => OfEngine(v, limiters)
    case Swept(_) => true
    case Elsewhere(e) => FromEngine(e.call, limiters)
  }

  ghost predicate Deployed(site: Site, history: seq<Happening>, v: Visit) {
    && site.Valid() && OfEngine(v, site.limiters)
    && forall i :: 0 <= i < |history| ==> OfSite(history[i], site.limiters)
  }

  lemma UsableTurns(limiters: seq<Limiter>, v: Visit)
    requires Usable(limiters) && OfEngine(v, limiters)
    ensures ValidTurns(v.turns) && DryRun.Separated(v.turns, DryNames(limiters))
  {
    forall j | 0 <= j < |v.turns|
      ensures ValidName(v.turns[j].limiter.name)
      ensures v.turns[j].limiter.dryRun <==> v.turns[j].limiter.name in DryNames(limiters)
    {
      assert v.turns[j].limiter == limiters[j] && Config.Sound(limiters[j]);
    }
  }

  lemma UsableCall(limiters: seq<Limiter>, call: Call)
    requires Usable(limiters) && FromEngine(call, limiters)
    ensures Stack.ValidCall(call)
  {
    var i :| 0 <= i < |limiters| && call == limiters[i].CallFor(call.key.bucket);
    assert Config.Sound(limiters[i]);
  }

  /** What a site lives through meets the hypotheses of the engine's results. */
  lemma DeployedIsValid(site: Site, history: seq<Happening>, v: Visit)
    requires Deployed(site, history, v)
    ensures ValidHistory(history) && ValidTurns(v.turns)
    ensures DryRunLimits.Admissible(history, v, DryNames(site.limiters))
  {
    BuiltIsUsable(site);
    UsableTurns(site.limiters, v);
    hide Usable, ValidTurns, DryRun.Separated, Site.Valid, FromEngine, OfEngine, Stack.ValidCall;
    forall i | 0 <= i < |history|
      ensures ValidHappening(history[i]) && DryRun.SeparatedHappening(history[i], DryNames(site.limiters))
    {
      assert OfSite(history[i], site.limiters);
      match history[i] {
        case Evaluated(u) => UsableTurns(site.limiters, u);
        case Swept(_) =>
        case Elsewhere(e) => UsableCall(site.limiters, e.call);
      }
    }
  }

  /** Every rejection by a configured engine is the store's own, whatever the history and the faults. */
  lemma ConfiguredRejections(site: Site, cfg: Stack.Config, history: seq<Happening>, v: Visit)
    requires Deployed(site, history, v)
    requires Walk(cfg, v.req, v.turns, LayersAfter(cfg, history)).decision.Rejected()
    ensures
      var s, limiters := LayersAfter(cfg, history), site.limiters;
      var d, first := Walk(cfg, v.req, v.turns, s).decision, First(cfg, v.req, v.turns, s);
      && first.Some? && d.limiter == limiters[first.value].name && !limiters[first.value].dryRun
      && var b := limiters[first.value].Consulted(v.req);
         && b.Some?
         && Stack.Refused(StoreStep(Free(cfg, v.req, v.turns[..first.value], s).db, cfg.prefix,
                                    Event(v.turns[first.value].tick.now, limiters[first.value].CallFor(b.value))).1)
  {
    hide Walk, Free, LayersAfter, StoreStep, First, Site.Valid, Limiter.Consulted, ValidHistory, ValidTurns;
    DeployedIsValid(site, history, v);
    RejectionsAreTrue(cfg, history, v);
  }

  /**
   * Taking every dry-run limiter out of a configured engine changes no enforcement while the store
   * answers; and where limiters share no cache capacity not even the wait, whatever is lost if the
   * breaker is off too.
   */
  lemma ConfiguredDryRun(site: Site, cfg: Stack.Config, history: seq<Happening>, v: Visit)
    requires Deployed(site, history, v)
    requires (cfg.threshold <= 0 && DryRun.Unshared(cfg)) || DryRunLimits.Answering(history, v)
    ensures
      var dry := DryNames(site.limiters);
      var w := Walk(cfg, v.req, v.turns, LayersAfter(cfg, history));
      var w' := Walk(cfg, v.req, DryRun.Enforcing(v.turns), LayersAfter(cfg, DryRun.EraseHistory(history, dry)));
      && DryRun.SameRejection(w.decision, w'.decision)
      && (DryRun.Unshared(cfg) ==> DryRun.SameResponse(w.decision, w'.decision))
      && DryRun.SameForEnforcing(w.layers.db, w'.layers.db, cfg.prefix, dry)
  {
    hide Walk, LayersAfter, DryRun.Separated, DryRun.SeparatedHistory, DryRun.SameForEnforcing, Deployed;
    DeployedIsValid(site, history, v);
    if DryRun.Unshared(cfg) {
      DryRun.DryRunErasure(cfg, history, v, DryNames(site.limiters));
    } else {
      DryRun.StackDryRunErasure(cfg, history, v, DryNames(site.limiters));
    }
  }

  // ---------------------------------------------------------------- sites where dry-run limiters interfere

  /** An entry for one path, keyed by a body field. */
  function Spec(name: string, path: string, dry: bool, window: Option<Config.WindowSpec>, bucket: Option<Config.BucketSpec>): Config.LimiterSpec {
    Config.LimiterSpec(name, Some(Config.KeySpec("id", [], [], [], [], "", "", false)), window, bucket, [path], [], dry, false, None)
  }

  /** A file with a dry-run limiter and an enforcing one, on two paths. */
  function TwoEntries(window: Option<Config.WindowSpec>, bucket: Option<Config.BucketSpec>): Config.File {
    Config.File(None, [Spec("d", "/d", true, window, bucket), Spec("e", "/e", false, window, bucket)])
  }

  predicate OneAlgorithm(window: Option<Config.WindowSpec>, bucket: Option<Config.BucketSpec>) {
    || (window.Some? && bucket.None? && Config.ValidWindow(window.value))
    || (window.None? && bucket.Some? && Config.ValidBucket(bucket.value))
  }

  lemma SpecIsValid(name: string, path: string, dry: bool, window: Option<Config.WindowSpec>, bucket: Option<Config.BucketSpec>)
    requires OneAlgorithm(window, bucket) && ValidName(name) && DryRunLimits.ShortPath(path)
    ensures Config.ValidSpec(Spec(name, path, dry, window, bucket)) && !Config.Dropped(Spec(name, path, dry, window, bucket), "")
  {
    assert Normaliser.TrimSpace("") == "";
    Normaliser.ParseNames("");
    DryRunLimits.ShortPathIsPlain(path);
    assert path[..1] == "/";
    assert Paths.ValidPattern(path);
  }

  lemma TwoEntriesAreValid(window: Option<Config.WindowSpec>, bucket: Option<Config.BucketSpec>, stat: Config.Stat)
    requires OneAlgorithm(window, bucket)
    ensures Config.ValidFile(TwoEntries(window, bucket), stat)
  {
    assert ValidName("d") && ValidName("e");
    SpecIsValid("d", "/d", true, window, bucket);
    SpecIsValid("e", "/e", false, window, bucket);
    hide Config.ValidSpec, ValidName;
    assert "d"[0] != "e"[0];
  }

  function ByBodyKeyer(): Config.Extract {
    (k: Config.Keyer, req: Request) => Keyed(req.body)
  }

  /** The site such a file makes. */
  ghost function TwoLimiters(window: Option<Config.WindowSpec>, bucket: Option<Config.BucketSpec>): (site: Site)
    requires OneAlgorithm(window, bucket)
    ensures site.Valid()
  {
    TwoEntriesAreValid(window, bucket, (_: string) => true);
    var f := TwoEntries(window, bucket);
    Site(f, (_: string) => true, "", ByBodyKeyer(), Config.Kept(f.limiters, "", ByBodyKeyer()))
  }

  lemma TwoLimitersRig(window: Option<Config.WindowSpec>, bucket: Option<Config.BucketSpec>) returns (rig: DryRunLimits.Rig)
    requires OneAlgorithm(window, bucket)
    ensures TwoLimiters(window, bucket).limiters == [rig.d, rig.e] && rig.Valid()
    ensures rig.d.rule == (if window.Some? then Rule(window.value.limit, window.value.window, window.value.block) else Rule(0, 0, 0))
    ensures rig.d.bucket == (if window.Some? then Bucket(0, 0) else Bucket(bucket.value.rate, bucket.value.burst))
  {
    var ls := TwoEntries(window, bucket).limiters;
    TwoEntriesAreValid(window, bucket, (_: string) => true);
    assert ValidName("d") && ValidName("e");
    SpecIsValid("d", "/d", true, window, bucket);
    SpecIsValid("e", "/e", false, window, bucket);
    hide Config.ValidSpec, Config.Dropped, Config.BuildKeyer, Config.Kept, ValidName;
    Config.KeptStep(ls, "", ByBodyKeyer());
    assert ls[..1] == [ls[0]] && [ls[0]][..0] == [];
    Config.KeptStep([ls[0]], "", ByBodyKeyer());
    Config.KeptNone("", ByBodyKeyer());
    rig := DryRunLimits.Rig(Config.BuildLimiter(ls[0], Config.BuildKeyer(ls[0].key.value).value.keyer, ByBodyKeyer()),
                            Config.BuildLimiter(ls[1], Config.BuildKeyer(ls[1].key.value).value.keyer, ByBodyKeyer()));
  }

  /** The rig's requests are requests to that site. */
  ghost predicate Serving(history: seq<Happening>, rig: DryRunLimits.Rig) {
    forall i :: 0 <= i < |history| ==> OfSite(history[i], [rig.d, rig.e])
  }

  lemma {:induction false} LostServes(rig: DryRunLimits.Rig, k: nat)
    ensures Serving(DryRunLimits.Lost(rig, k), rig)
  {
    if k == 0 {
    } else {
      LostServes(rig, k - 1);
    }
  }

  lemma {:induction false} FillServes(rig: DryRunLimits.Rig, k: nat)
    ensures Serving(DryRunLimits.Fill(rig, k), rig)
  {
    if k == 0 {
    } else {
      FillServes(rig, k - 1);
    }
  }

  lemma TwoDryNames(rig: DryRunLimits.Rig)
    requires rig.Valid()
    ensures DryNames([rig.d, rig.e]) == DryRunLimits.DRY
  {
    assert [rig.d, rig.e][0].dryRun;
  }

  /**
   * "A dry-run limiter must not change what any other limiter does", whatever is lost: true of every
   * file and every history if and only if the breaker is off and the cache is off or unbounded.
   */
  lemma ConfiguredDryRunExactly(cfg: Stack.Config)
    requires cfg.threshold > 0 ==> cfg.cooldown > 0
    ensures (forall site: Site, history: seq<Happening>, v: Visit ::
               Deployed(site, history, v) ==> DryRunLimits.ErasedAlike(cfg, history, v, DryNames(site.limiters)))
            <==> cfg.threshold <= 0 && DryRun.Unshared(cfg)
  {
    hide DryRunLimits.ErasedAlike, DryRunLimits.Admissible, Deployed;
    if cfg.threshold <= 0 && DryRun.Unshared(cfg) {
      forall site: Site, history: seq<Happening>, v: Visit | Deployed(site, history, v)
        ensures DryRunLimits.ErasedAlike(cfg, history, v, DryNames(site.limiters))
      {
        DeployedIsValid(site, history, v);
        DryRunLimits.ErasureIsAlike(cfg, history, v, DryNames(site.limiters));
      }
    } else {
      var site, history, v := InterferingSite(cfg);
      assert !DryRunLimits.ErasedAlike(cfg, history, v, DryNames(site.limiters));
    }
  }

  lemma InterferingSite(cfg: Stack.Config) returns (site: Site, history: seq<Happening>, v: Visit)
    requires !(cfg.threshold <= 0 && DryRun.Unshared(cfg)) && (cfg.threshold > 0 ==> cfg.cooldown > 0)
    ensures Deployed(site, history, v) && !DryRunLimits.ErasedAlike(cfg, history, v, DryNames(site.limiters))
  {
    hide DryRunLimits.ErasedAlike, DryRunLimits.Admissible, Site.Valid, DryRunLimits.Rig.Valid;
    if cfg.threshold > 0 {
      var bucket := Some(Config.BucketSpec(1, 1));
      site := TwoLimiters(None, bucket);
      var rig := TwoLimitersRig(None, bucket);
      history, v := DryRunLimits.Lost(rig, cfg.threshold), DryRunLimits.At(rig, "/e", "k", Stack.Healthy);
      DryRunLimits.SharedCircuit(cfg, rig);
      LostServes(rig, cfg.threshold);
      TwoDryNames(rig);
    } else {
      var window := Some(Config.WindowSpec(1, SECOND, SECOND));
      site := TwoLimiters(window, None);
      var rig := TwoLimitersRig(window, None);
      history, v := DryRunLimits.FillAndBlock(cfg, rig), DryRunLimits.At(rig, "/e", "k", Stack.LostRequest);
      DryRunLimits.SharedCapacity(cfg, rig);
      FillServes(rig, cfg.maxLen);
      TwoDryNames(rig);
    }
  }

  // ---------------------------------------------------------------- the fleet

  predicate Serves(schedule: seq<Fleet.Move>, limiters: seq<Limiter>) {
    forall m :: 0 <= m < |schedule| && schedule[m].Arrive? ==> FromEngine(schedule[m].call, limiters)
  }

  ghost predicate OnlyEngineCalls(s: Fleet.System, limiters: seq<Limiter>) {
    && (forall id :: id in s.requests ==> FromEngine(s.requests[id].call, limiters))
    && (forall i :: 0 <= i < |s.log| ==> FromEngine(s.log[i].call, limiters))
  }

  /** A step starts at most the call it brings, and executes at most a call that was started. */
  lemma NoOtherCalls(cfg: Stack.Config, s: Fleet.System, m: Fleet.Move, limiters: seq<Limiter>)
    requires OnlyEngineCalls(s, limiters) && (m.Arrive? ==> FromEngine(m.call, limiters))
    ensures OnlyEngineCalls(Fleet.Next(cfg, s, m), limiters)
  {
    hide FromEngine, StoreStep, Stack.Cacheable;
  }

  lemma {:induction false} OnlyEngineCallsAlways(cfg: Stack.Config, replicas: nat, schedule: seq<Fleet.Move>, limiters: seq<Limiter>)
    requires Serves(schedule, limiters)
    ensures OnlyEngineCalls(Fleet.After(cfg, replicas, schedule), limiters)
  {
    if schedule == [] {
    } else {
      hide FromEngine, Fleet.Next, OnlyEngineCalls;
      var n := |schedule| - 1;
      OnlyEngineCallsAlways(cfg, replicas, schedule[..n], limiters);
      NoOtherCalls(cfg, Fleet.After(cfg, replicas, schedule[..n]), schedule[n], limiters);
    }
  }

  /** Unique names: a key under a limiter's name is only ever counted by that limiter's algorithm. */
  lemma AlgorithmIsFixed(cfg: Stack.Config, s: Fleet.System, limiters: seq<Limiter>, i: nat, key: Key)
    requires OnlyEngineCalls(s, limiters) && Usable(limiters) && i < |limiters| && key.limiter == limiters[i].name
    ensures limiters[i].rule.Valid() ==> WindowRuns.FixedRule(Fleet.LogRun(cfg, s), key, limiters[i].rule)
    ensures limiters[i].bucket.Valid() ==> BucketRuns.FixedBucket(Fleet.LogRun(cfg, s), key, limiters[i].bucket)
  {
    var r := Fleet.LogRun(cfg, s);
    forall n | 0 <= n < |r.events| && SameStorage(r.events[n].call.key, key)
      ensures r.events[n].call == limiters[i].CallFor(r.events[n].call.key.bucket)
    {
      assert FromEngine(s.log[n].call, limiters);
      var j :| 0 <= j < |limiters| && s.log[n].call == limiters[j].CallFor(s.log[n].call.key.bucket);
      assert limiters[j].name == limiters[i].name;
      assert i == j;
    }
  }

  /**
   * The bound a maintainer reads off the file: however many replicas run it, however their steps
   * interleave and whatever the network loses, a window limiter lets fewer than
   * limit * (1 + ceil(span / min(window, block))) requests per bucket through in any interval, and
   * fewer than twice the limit in one window when the block is no shorter than the window.
   */
  lemma ConfiguredBound(site: Site, i: nat, bucket: string, cfg: Stack.Config, replicas: nat, schedule: seq<Fleet.Move>, from: int, span: int)
    requires site.Valid() && i < |site.limiters| && site.limiters[i].rule.Valid() && span > 0
    requires Serves(schedule, site.limiters) && !Fleet.After(cfg, replicas, schedule).manual
    ensures
      var rule := site.limiters[i].rule;
      var allowed := |FleetBounds.AllowedIn(Fleet.After(cfg, replicas, schedule), Key(site.limiters[i].name, bucket),
                                             FleetBounds.FixedWindow, from, from + span)|;
      && allowed < rule.limit * (1 + CeilDiv(span, WindowRuns.Spacing(rule)))
      && (rule.block >= rule.window && span <= rule.window ==> allowed < 2 * rule.limit)
  {
    hide Fleet.After, FleetBounds.AllowedIn, OnlyEngineCalls, Site.Valid, FromEngine;
    BuiltIsUsable(site);
    assert Config.Sound(site.limiters[i]);
    hide Usable;
    var s, key, rule := Fleet.After(cfg, replicas, schedule), Key(site.limiters[i].name, bucket), site.limiters[i].rule;
    OnlyEngineCallsAlways(cfg, replicas, schedule, site.limiters);
    AlgorithmIsFixed(cfg, s, site.limiters, i, key);
    FleetBounds.FleetBound(cfg, replicas, schedule, key, rule, from, span);
    if rule.block >= rule.window && span <= rule.window {
      WindowRuns.LongBlockSpacing(rule);
      CeilDivLeast(span, WindowRuns.Spacing(rule), 1);
      MulMonotone(1 + CeilDiv(span, WindowRuns.Spacing(rule)), 2, rule.limit);
    }
  }

  /** And for a token bucket: never more than burst plus rate times the length of the interval. */
  lemma ConfiguredCapacity(site: Site, i: nat, bucket: string, cfg: Stack.Config, replicas: nat, schedule: seq<Fleet.Move>, from: int, span: int)
    requires site.Valid() && i < |site.limiters| && site.limiters[i].bucket.Valid() && span > 0
    requires Serves(schedule, site.limiters) && !Fleet.After(cfg, replicas, schedule).manual
    ensures
      var b := site.limiters[i].bucket;
      var allowed := |FleetBounds.AllowedIn(Fleet.After(cfg, replicas, schedule), Key(site.limiters[i].name, bucket),
                                             FleetBounds.TokenBucket, from, from + span)|;
      1000 * allowed <= 1000 * b.burst + b.rate * CeilDiv(span, MILLISECOND)
  {
    hide Fleet.After, FleetBounds.AllowedIn, OnlyEngineCalls, Site.Valid, FromEngine;
    BuiltIsUsable(site);
    assert Config.Sound(site.limiters[i]);
    hide Usable;
    var s, key := Fleet.After(cfg, replicas, schedule), Key(site.limiters[i].name, bucket);
    OnlyEngineCallsAlways(cfg, replicas, schedule, site.limiters);
    AlgorithmIsFixed(cfg, s, site.limiters, i, key);
    FleetBounds.FleetCapacity(cfg, replicas, schedule, key, site.limiters[i].bucket, from, span);
  }
}
