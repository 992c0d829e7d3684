/**
 * The fleet's single steps against the components they are taken from: made back to back they are one
 * call of the stack, and however they are interleaved each replica's breaker goes through a trace of
 * its own questions and records.
 */
module FleetSteps {
  import opened Prelude
  import opened Store
  import opened StoreRuns
  import opened BlockCache
  import opened Breaker
  import opened Stack
  import opened Fleet

  // ---------------------------------------------------------------- one request, back to back

  /** All the moves of one request at one instant; those that turn out impossible change nothing. */
  function Moves(id: nat, replica: nat, call: Call, now: int, fault: Fault): seq<Move> {
    [Arrive(id, replica, call, now, now), Ask(id, now), Execute(id, now, fault), Note(id, now), Finish(id, now)]
  }

  /** A replica with the shared keyspace, as the stack sees it. */
  function LayersOf(s: System, replica: nat): Layers
    requires replica < |s.replicas|
  {
    Layers(s.db, s.replicas[replica].circuit, s.replicas[replica].entries, 0)
  }

  lemma ContinueOne(cfg: Config, s: System, moves: seq<Move>, m: Move)
    ensures Continue(cfg, s, moves + [m]) == Next(cfg, Continue(cfg, s, moves), m) && Continue(cfg, s, []) == s
  {
    hide Next;
    assert (moves + [m])[..|moves|] == moves;
  }

  lemma FiveMoves(cfg: Config, s: System, a: Move, b: Move, c: Move, d: Move, e: Move)
    ensures Continue(cfg, s, [a, b, c, d, e]) == Next(cfg, Next(cfg, Next(cfg, Next(cfg, Next(cfg, s, a), b), c), d), e)
  {
    hide Next;
    ContinueOne(cfg, s, [], a);
    ContinueOne(cfg, s, [a], b);
    ContinueOne(cfg, s, [a, b], c);
    ContinueOne(cfg, s, [a, b, c], d);
    ContinueOne(cfg, s, [a, b, c, d], e);
    assert [] + [a] == [a] && [a] + [b] == [a, b] && [a, b] + [c] == [a, b, c] && [a, b, c] + [d] == [a, b, c, d];
    assert [a, b, c, d] + [e] == [a, b, c, d, e];
  }

  /** The request is answered, on its replica, and nothing else has changed but its replica and the keyspace. */
  predicate Served(s: System, s': System, id: nat, replica: nat, call: Call, t: Layers, a: Answer) {
    && replica < |s.replicas| == |s'.replicas|
    && s'.db == t.db && s'.replicas[replica].circuit == t.circuit && s'.replicas[replica].entries == t.entries
    && id in s'.requests && s'.requests[id].call == call && s'.requests[id].phase.Done? && s'.requests[id].phase.answer == a
    && (forall i :: 0 <= i < |s.replicas| && i != replica ==> s'.replicas[i] == s.replicas[i])
    && s'.requests.Keys == s.requests.Keys + {id}
    && (forall x :: x in s.requests && x != id ==> s'.requests[x] == s.requests[x])
  }

  /** The cache knew: the other moves find nothing to do. */
  lemma ServedFromCache(cfg: Config, s: System, id: nat, replica: nat, call: Call, now: int, fault: Fault)
    requires CanArrive(s, id, replica, call, now, now) && CacheHit(cfg, LayersOf(s, replica), Event(now, call)).Some?
    ensures
      var s', (t, a) := Continue(cfg, s, Moves(id, replica, call, now, fault)), StackStep(cfg, LayersOf(s, replica), Event(now, call), fault);
      Served(s, s', id, replica, call, t, a) && s'.requests[id].phase.source.FromCache?
  {
    FiveMoves(cfg, s, Arrive(id, replica, call, now, now), Ask(id, now), Execute(id, now, fault), Note(id, now), Finish(id, now));
    hide StoreStep, InnerStep, ValidCall, Continue;
  }

  /** After the lookup missed: the request waits for the breaker. */
  lemma Missed(cfg: Config, s: System, id: nat, replica: nat, call: Call, now: int)
    requires CanArrive(s, id, replica, call, now, now) && CacheHit(cfg, LayersOf(s, replica), Event(now, call)).None?
    ensures Next(cfg, s, Arrive(id, replica, call, now, now)) ==
            InPhase(s, id, replica, call, now, s.replicas[replica].circuit, Looked)
  {
    hide ValidCall;
  }

  lemma ServedByBreaker(cfg: Config, s: System, id: nat, replica: nat, call: Call, now: int, fault: Fault)
    requires CanArrive(s, id, replica, call, now, now) && CacheHit(cfg, LayersOf(s, replica), Event(now, call)).None?
    requires !AllowStep(s.replicas[replica].circuit, cfg.threshold, now).1
    ensures
      var s', (t, a) := Continue(cfg, s, Moves(id, replica, call, now, fault)), StackStep(cfg, LayersOf(s, replica), Event(now, call), fault);
      Served(s, s', id, replica, call, t, a) && s'.requests[id].phase.source.FromBreaker?
  {
    FiveMoves(cfg, s, Arrive(id, replica, call, now, now), Ask(id, now), Execute(id, now, fault), Note(id, now), Finish(id, now));
    Missed(cfg, s, id, replica, call, now);
    RefusedCircuit(s.replicas[replica].circuit, cfg.threshold, now);
    hide DoArrive, DoExecute, DoNote, DoFinish, ValidCall, Continue, AllowStep, RecordStep, Lookup;
    var s2 := Next(cfg, InPhase(s, id, replica, call, now, s.replicas[replica].circuit, Looked), Ask(id, now));
    Idle(cfg, s2, id, now, fault);
  }

  /** An answered request makes no more moves. */
  lemma Idle(cfg: Config, s: System, id: nat, now: int, fault: Fault)
    requires id in s.requests && s.requests[id].phase.Done?
    ensures Next(cfg, s, Ask(id, now)) == s && Next(cfg, s, Execute(id, now, fault)) == s
    ensures Next(cfg, s, Note(id, now)) == s && Next(cfg, s, Finish(id, now)) == s
  {
  }

  lemma RefusedCircuit(c: Circuit, threshold: int, now: int)
    requires !AllowStep(c, threshold, now).1
    ensures AllowStep(c, threshold, now).0 == c
  {
  }

  /** The request in this phase, on a replica with this circuit. */
  function InPhase(s: System, id: nat, replica: nat, call: Call, now: int, c: Circuit, p: Phase): System
    requires replica < |s.replicas|
  {
    s.(replicas := s.replicas[replica := s.replicas[replica].(clock := now, circuit := c)],
       requests := s.requests[id := Request(replica, call, p)])
  }

  lemma Asking(cfg: Config, s: System, id: nat, replica: nat, call: Call, now: int)
    requires replica < |s.replicas| && AllowStep(s.replicas[replica].circuit, cfg.threshold, now).1
    ensures
      var c := s.replicas[replica].circuit;
      Next(cfg, InPhase(s, id, replica, call, now, c, Looked), Ask(id, now)) ==
      InPhase(s, id, replica, call, now, AllowStep(c, cfg.threshold, now).0, Admitted)
  {
    hide AllowStep;
    var c := s.replicas[replica].circuit;
    var x, y := Next(cfg, InPhase(s, id, replica, call, now, c, Looked), Ask(id, now)),
                InPhase(s, id, replica, call, now, AllowStep(c, cfg.threshold, now).0, Admitted);
    assert x.replicas == y.replicas && x.requests == y.requests;
  }

  lemma Executing(cfg: Config, s: System, id: nat, replica: nat, call: Call, now: int, c: Circuit, fault: Fault)
    requires replica < |s.replicas| && s.storeClock <= now
    ensures
      var s' := Next(cfg, InPhase(s, id, replica, call, now, c, Admitted), Execute(id, now, fault));
      var (db, a) := Remote(s.db, cfg.prefix, Event(now, call), fault);
      && s'.db == db && s'.replicas == InPhase(s, id, replica, call, now, c, Admitted).replicas
      && s'.requests == s.requests[id := Request(replica, call, Replied(a, if fault.Healthy? then Some(|s.log|) else None))]
  {
    hide StoreStep;
  }

  lemma Noting(cfg: Config, s: System, id: nat, now: int)
    requires Ready(s, id, now) && s.requests[id].phase.Replied?
    ensures
      var s', q := Next(cfg, s, Note(id, now)), s.requests[id];
      var rep := s.replicas[q.replica];
      && s'.db == s.db
      && s'.replicas == s.replicas[q.replica :=
                                   rep.(clock := now, circuit := RecordStep(rep.circuit, cfg.threshold, cfg.cooldown, Succeeded(q.phase.answer), now))]
      && s'.requests == s.requests[id := q.(phase := Recorded(q.phase.answer, q.phase.entry))]
  {
    hide RecordStep, Succeeded;
  }

  /** The state after the request's script and its record. */
  lemma AskedAndRecorded(cfg: Config, s: System, id: nat, replica: nat, call: Call, now: int, fault: Fault)
    requires CanArrive(s, id, replica, call, now, now) && s.storeClock <= now
    requires AllowStep(s.replicas[replica].circuit, cfg.threshold, now).1
    ensures
      var s1 := InPhase(s, id, replica, call, now, s.replicas[replica].circuit, Looked);
      var s4 := Next(cfg, Next(cfg, Next(cfg, s1, Ask(id, now)), Execute(id, now, fault)), Note(id, now));
      var (t, a) := InnerStep(cfg, LayersOf(s, replica), Event(now, call), fault);
      && s4.db == t.db && |s4.replicas| == |s.replicas|
      && s4.replicas[replica] == s.replicas[replica].(clock := now, circuit := t.circuit)
      && (forall i :: 0 <= i < |s.replicas| && i != replica ==> s4.replicas[i] == s.replicas[i])
      && s4.requests.Keys == s.requests.Keys + {id}
      && (forall x :: x in s.requests && x != id ==> s4.requests[x] == s.requests[x])
      && s4.requests[id].replica == replica && s4.requests[id].call == call
      && s4.requests[id].phase.Recorded? && s4.requests[id].phase.answer == a
      && (fault.Healthy? <==> s4.requests[id].phase.entry.Some?)
  {
    hide Next, Remote, ValidCall, AllowStep, RecordStep, Succeeded;
    var c := AllowStep(s.replicas[replica].circuit, cfg.threshold, now).0;
    Asking(cfg, s, id, replica, call, now);
    Executing(cfg, s, id, replica, call, now, c, fault);
    Noting(cfg, Next(cfg, InPhase(s, id, replica, call, now, c, Admitted), Execute(id, now, fault)), id, now);
  }

  /** The last move: the answer is handed over, and remembered if it is a block. */
  lemma Finished(cfg: Config, s: System, id: nat, now: int)
    requires Ready(s, id, now) && s.requests[id].phase.Recorded?
    ensures
      var s', q := Next(cfg, s, Finish(id, now)), s.requests[id];
      var rep, a := s.replicas[q.replica], q.phase.answer;
      && s'.db == s.db && |s'.replicas| == |s.replicas| && s'.requests.Keys == s.requests.Keys
      && s'.replicas[q.replica].circuit == rep.circuit
      && s'.replicas[q.replica].entries ==
           (if cfg.cached && Cacheable(a)
            then RememberStep(rep.entries, q.call.key.String(), a.result.value.retryAfter, cfg.maxLen, cfg.maxTTL, now)
            else rep.entries)
      && (forall i :: 0 <= i < |s.replicas| && i != q.replica ==> s'.replicas[i] == s.replicas[i])
      && (forall x :: x in s.requests && x != id ==> s'.requests[x] == s.requests[x])
      && s'.requests[id].call == q.call && s'.requests[id].phase.Done? && s'.requests[id].phase.answer == a
      && (if q.phase.entry.Some? then s'.requests[id].phase.source.FromScript? else s'.requests[id].phase.source.FromNetwork?)
  {
    hide RememberStep;
  }

  lemma ServedByStore(cfg: Config, s: System, id: nat, replica: nat, call: Call, now: int, fault: Fault)
    requires CanArrive(s, id, replica, call, now, now) && s.storeClock <= now
    requires CacheHit(cfg, LayersOf(s, replica), Event(now, call)).None?
    requires AllowStep(s.replicas[replica].circuit, cfg.threshold, now).1
    ensures
      var s', (t, a) := Continue(cfg, s, Moves(id, replica, call, now, fault)), StackStep(cfg, LayersOf(s, replica), Event(now, call), fault);
      && Served(s, s', id, replica, call, t, a)
      && (if fault.Healthy? then s'.requests[id].phase.source.FromScript? else s'.requests[id].phase.source.FromNetwork?)
  {
    FiveMoves(cfg, s, Arrive(id, replica, call, now, now), Ask(id, now), Execute(id, now, fault), Note(id, now), Finish(id, now));
    Missed(cfg, s, id, replica, call, now);
    AskedAndRecorded(cfg, s, id, replica, call, now, fault);
    InnerEntries(cfg, LayersOf(s, replica), Event(now, call), fault);
    hide Next, ValidCall, Continue, InnerStep, RememberStep, Lookup, AllowStep, CacheHit;
    var s1 := InPhase(s, id, replica, call, now, s.replicas[replica].circuit, Looked);
    Finished(cfg, Next(cfg, Next(cfg, Next(cfg, s1, Ask(id, now)), Execute(id, now, fault)), Note(id, now)), id, now);
  }

  lemma InnerEntries(cfg: Config, s: Layers, e: Event, fault: Fault)
    ensures InnerStep(cfg, s, e, fault).0.entries == s.entries
  {
    hide StoreStep;
  }

  /**
   * A request whose moves are made back to back, on any replica of any fleet state, with any fault,
   * cache and circuit, is one call of the stack: the same keyspace, circuit, entries and answer, and
   * the source of the answer is the layer the stack took it from.
   */
  lemma BackToBack(cfg: Config, s: System, id: nat, replica: nat, call: Call, now: int, fault: Fault)
    requires CanArrive(s, id, replica, call, now, now) && s.storeClock <= now
    ensures
      var s', layers := Continue(cfg, s, Moves(id, replica, call, now, fault)), LayersOf(s, replica);
      var (t, a) := StackStep(cfg, layers, Event(now, call), fault);
      var hit, admitted := CacheHit(cfg, layers, Event(now, call)).Some?, AllowStep(layers.circuit, cfg.threshold, now).1;
      && Served(s, s', id, replica, call, t, a)
      && var source := s'.requests[id].phase.source;
         && (source.FromCache? <==> hit)
         && (source.FromBreaker? <==> !hit && !admitted)
         && (source.FromScript? <==> !hit && admitted && fault.Healthy?)
  {
    hide CacheHit, AllowStep, StackStep, Continue, ValidCall;
    if CacheHit(cfg, LayersOf(s, replica), Event(now, call)).Some? {
      ServedFromCache(cfg, s, id, replica, call, now, fault);
    } else if !AllowStep(s.replicas[replica].circuit, cfg.threshold, now).1 {
      ServedByBreaker(cfg, s, id, replica, call, now, fault);
    } else {
      ServedByStore(cfg, s, id, replica, call, now, fault);
    }
  }

  /** A sweep on a replica: from now on every lookup finds what it found, and what is left is still trusted. */
  lemma FleetSweep(cfg: Config, s: System, replica: nat, now: int)
    requires replica < |s.replicas| && s.replicas[replica].clock <= now
    ensures
      var s' := Next(cfg, s, Sweep(replica, now));
      && |s'.replicas| == |s.replicas| && s' == s.(replicas := s'.replicas)
      && (forall i :: 0 <= i < |s.replicas| && i != replica ==> s'.replicas[i] == s.replicas[i])
      && s'.replicas[replica].circuit == s.replicas[replica].circuit && s'.replicas[replica].clock == now
      && SameLookups(s'.replicas[replica].entries, s.replicas[replica].entries, now)
      && (forall k :: k in s'.replicas[replica].entries ==> now < s'.replicas[replica].entries[k])
  {
    SweepUnseen(s.replicas[replica].entries, now);
    hide SameLookups, SweepStep;
  }

  // ---------------------------------------------------------------- each replica's breaker

  /** What a move does to replica i's breaker, if anything: a question or a record. */
  function StepOf(s: System, m: Move, i: nat): seq<Step> {
    match m
    case Ask(id, now) =>
      if Ready(s, id, now) && s.requests[id].phase.Looked? && s.requests[id].replica == i then [Allow(now)] else []
    case Note(id, now) =>
      if Ready(s, id, now) && s.requests[id].phase.Replied? && s.requests[id].replica == i
      then [Record(Succeeded(s.requests[id].phase.answer), now)] else []
    case _ => []
  }

  /** Replica i's questions and records, in the order of the schedule. */
  function StepsOf(cfg: Config, replicas: nat, schedule: seq<Move>, i: nat): seq<Step> {
    if schedule == [] then []
    else
      var before := schedule[..|schedule| - 1];
      StepsOf(cfg, replicas, before, i) + StepOf(After(cfg, replicas, before), schedule[|schedule| - 1], i)
  }

  function TraceOf(cfg: Config, replicas: nat, schedule: seq<Move>, i: nat): Trace {
    Trace(cfg.threshold, cfg.cooldown, StepsOf(cfg, replicas, schedule, i))
  }

  predicate OnItsWay(q: Request, i: nat) {
    q.replica == i && (q.phase.Admitted? || q.phase.Replied?)
  }

  /** The requests of replica i that were admitted and have not recorded. */
  function InFlightOf(s: System, i: nat): set<nat> {
    set id | id in s.requests && OnItsWay(s.requests[id], i)
  }

  /** A request that asks, seen from its replica's breaker. */
  lemma AskEffect(cfg: Config, s: System, id: nat, now: int)
    requires Ready(s, id, now) && s.requests[id].phase.Looked?
    ensures
      var s', i := Next(cfg, s, Ask(id, now)), s.requests[id].replica;
      var (c, admitted) := AllowStep(s.replicas[i].circuit, cfg.threshold, now);
      && |s'.replicas| == |s.replicas| && s'.replicas[i].circuit == c && id !in InFlightOf(s, i)
      && InFlightOf(s', i) == (if admitted then InFlightOf(s, i) + {id} else InFlightOf(s, i))
      && id in s'.requests
      && s'.requests[id].phase == (if admitted then Admitted else Done(Failed(s.requests[id].call), FromBreaker))
  {
    hide AllowStep;
  }

  /** A request that records. */
  lemma NoteEffect(cfg: Config, s: System, id: nat, now: int)
    requires Ready(s, id, now) && s.requests[id].phase.Replied?
    ensures
      var s', i := Next(cfg, s, Note(id, now)), s.requests[id].replica;
      && |s'.replicas| == |s.replicas|
      && s'.replicas[i].circuit ==
           RecordStep(s.replicas[i].circuit, cfg.threshold, cfg.cooldown, Succeeded(s.requests[id].phase.answer), now)
      && id in InFlightOf(s, i) && InFlightOf(s', i) == InFlightOf(s, i) - {id}
  {
    hide RecordStep, Succeeded;
  }

  /** Every other move, and those of other replicas. */
  lemma NoEffect(cfg: Config, s: System, m: Move, i: nat)
    requires i < |s.replicas| && StepOf(s, m, i) == []
    ensures
      var s' := Next(cfg, s, m);
      |s'.replicas| == |s.replicas| && s'.replicas[i].circuit == s.replicas[i].circuit && InFlightOf(s', i) == InFlightOf(s, i)
  {
    hide StoreStep, AllowStep, RecordStep, RememberStep, Cacheable, Lookup, SweepStep, ValidCall, Succeeded;
    match m {
      case Execute(id, now, fault) => ScriptUnnoticed(cfg, s, id, now, fault, i);
      case Finish(id, now) => FinishUnnoticed(cfg, s, id, now, i);
      case _ =>
    }
  }

  lemma ScriptUnnoticed(cfg: Config, s: System, id: nat, now: int, fault: Fault, i: nat)
    requires i < |s.replicas|
    ensures
      var s' := DoExecute(cfg, s, id, now, fault);
      s'.replicas == s.replicas && InFlightOf(s', i) == InFlightOf(s, i)
  {
    hide StoreStep;
  }

  lemma FinishUnnoticed(cfg: Config, s: System, id: nat, now: int, i: nat)
    requires i < |s.replicas|
    ensures
      var s' := DoFinish(cfg, s, id, now);
      |s'.replicas| == |s.replicas| && s'.replicas[i].circuit == s.replicas[i].circuit && InFlightOf(s', i) == InFlightOf(s, i)
  {
    hide RememberStep, Cacheable;
  }

  /** Appending one step to a trace. */
  lemma TraceAppended(t: Trace, step: Step)
    ensures
      var u, n := Trace(t.threshold, t.cooldown, t.steps + [step]), |t.steps|;
      && u.At(n) == t.At(n) && u.InFlight(n) == t.InFlight(n)
      && u.At(n + 1) == (match step
                         case Allow(now) => AllowStep(t.At(n), t.threshold, now).0
                         case Record(success, now) => RecordStep(t.At(n), t.threshold, t.cooldown, success, now))
      && u.InFlight(n + 1) == t.InFlight(n) + (if u.Admits(n) then 1 else 0) - (if step.Record? then 1 else 0)
      && (u.Admits(n) <==> step.Allow? && AllowStep(t.At(n), t.threshold, step.now).1)
  {
    hide AllowStep, RecordStep;
    PrefixAgrees(t, Trace(t.threshold, t.cooldown, t.steps + [step]), |t.steps|);
  }

  lemma TraceStaysValid(t: Trace, step: Step)
    requires t.Valid() && (step.Record? ==> t.InFlight(|t.steps|) > 0)
    ensures Trace(t.threshold, t.cooldown, t.steps + [step]).Valid()
  {
    hide Trace.At, Trace.InFlight;
    var u := Trace(t.threshold, t.cooldown, t.steps + [step]);
    forall i | 0 <= i < |u.steps| && u.steps[i].Record? ensures u.InFlight(i) > 0 {
      PrefixAgrees(t, u, i);
      if i < |t.steps| {
        assert t.steps[i].Record?;
      }
    }
  }

  /** The replica's breaker is where the trace leaves it, with the trace's calls in flight. */
  ghost predicate Follows(cfg: Config, s: System, i: nat, steps: seq<Step>) {
    var t := Trace(cfg.threshold, cfg.cooldown, steps);
    && i < |s.replicas| && s.replicas[i].circuit == t.At(|steps|)
    && t.InFlight(|steps|) == |InFlightOf(s, i)|
    && (cfg.threshold > 0 ==> t.Valid())
  }

  lemma FollowsAsk(cfg: Config, s: System, i: nat, steps: seq<Step>, id: nat, now: int)
    requires Follows(cfg, s, i, steps) && Ready(s, id, now) && s.requests[id].phase.Looked? && s.requests[id].replica == i
    ensures Follows(cfg, Next(cfg, s, Ask(id, now)), i, steps + [Allow(now)])
  {
    hide Next, AllowStep, Trace.At, Trace.InFlight, Trace.Valid, InFlightOf, Trace.Admits;
    AskEffect(cfg, s, id, now);
    var t := Trace(cfg.threshold, cfg.cooldown, steps);
    TraceAppended(t, Allow(now));
    if cfg.threshold > 0 {
      TraceStaysValid(t, Allow(now));
    }
  }

  lemma FollowsNote(cfg: Config, s: System, i: nat, steps: seq<Step>, id: nat, now: int)
    requires Follows(cfg, s, i, steps) && Ready(s, id, now) && s.requests[id].phase.Replied? && s.requests[id].replica == i
    ensures Follows(cfg, Next(cfg, s, Note(id, now)), i, steps + [Record(Succeeded(s.requests[id].phase.answer), now)])
  {
    hide Next, RecordStep, AllowStep, Trace.At, Trace.InFlight, Trace.Valid, InFlightOf, Trace.Admits, Succeeded;
    NoteEffect(cfg, s, id, now);
    var t, step := Trace(cfg.threshold, cfg.cooldown, steps), Record(Succeeded(s.requests[id].phase.answer), now);
    TraceAppended(t, step);
    if cfg.threshold > 0 {
      TraceStaysValid(t, step);
    }
  }

  lemma FollowsMove(cfg: Config, s: System, m: Move, i: nat, steps: seq<Step>)
    requires Follows(cfg, s, i, steps)
    ensures Follows(cfg, Next(cfg, s, m), i, steps + StepOf(s, m, i))
  {
    hide Next, Trace.At, Trace.InFlight, Trace.Valid, InFlightOf, Succeeded;
    if StepOf(s, m, i) == [] {
      NoEffect(cfg, s, m, i);
      assert steps + [] == steps;
    } else if m.Ask? {
      FollowsAsk(cfg, s, i, steps, m.id, m.now);
    } else {
      FollowsNote(cfg, s, i, steps, m.id, m.now);
    }
  }

  /**
   * However the fleet's moves are interleaved, each replica's circuit is what the breaker makes of
   * that replica's own questions and records, only admitted requests record, and the trace counts as
   * in flight exactly the requests that are on their way.
   */
  lemma {:induction false} CircuitIsTrace(cfg: Config, replicas: nat, schedule: seq<Move>, i: nat)
    requires i < replicas
    ensures Follows(cfg, After(cfg, replicas, schedule), i, StepsOf(cfg, replicas, schedule, i))
  {
    FollowsAtFirst(cfg, replicas, i);
    hide Follows, Next, StepOf;
    if schedule == [] {
    } else {
      var before, m := schedule[..|schedule| - 1], schedule[|schedule| - 1];
      CircuitIsTrace(cfg, replicas, before, i);
      FollowsMove(cfg, After(cfg, replicas, before), m, i, StepsOf(cfg, replicas, before, i));
    }
  }

  lemma FollowsAtFirst(cfg: Config, replicas: nat, i: nat)
    requires i < replicas
    ensures Follows(cfg, Initial(replicas), i, [])
  {
    assert InFlightOf(Initial(replicas), i) == {};
  }

  /** A request that asks is admitted exactly when the trace admits it, and is otherwise answered by the breaker. */
  lemma AskDecides(cfg: Config, replicas: nat, before: seq<Move>, id: nat, now: int)
    requires
      var s := After(cfg, replicas, before);
      Ready(s, id, now) && s.requests[id].phase.Looked?
    ensures
      var i := After(cfg, replicas, before).requests[id].replica;
      var s', t, n := After(cfg, replicas, before + [Ask(id, now)]), TraceOf(cfg, replicas, before + [Ask(id, now)], i), |StepsOf(cfg, replicas, before, i)|;
      && id in s'.requests && |t.steps| == n + 1 && t.steps[n] == Allow(now)
      && (s'.requests[id].phase == Admitted <==> t.Admits(n))
      && (s'.requests[id].phase == Done(Failed(s'.requests[id].call), FromBreaker) <==> !t.Admits(n))
  {
    var s, m := After(cfg, replicas, before), Ask(id, now);
    var i := s.requests[id].replica;
    ReplicasStay(cfg, replicas, before);
    CircuitIsTrace(cfg, replicas, before, i);
    AskEffect(cfg, s, id, now);
    TraceAppended(TraceOf(cfg, replicas, before, i), Allow(now));
    assert StepOf(s, m, i) == [Allow(now)];
    assert (before + [m])[..|before|] == before;
    CallStays(cfg, s, id, now);
    hide Next, AllowStep, RecordStep, Trace.At, Trace.InFlight, Trace.Valid, InFlightOf, Trace.Admits;
  }

  lemma CallStays(cfg: Config, s: System, id: nat, now: int)
    requires id in s.requests
    ensures id in Next(cfg, s, Ask(id, now)).requests && Next(cfg, s, Ask(id, now)).requests[id].call == s.requests[id].call
  {
    hide AllowStep;
  }

  lemma {:induction false} ReplicasStay(cfg: Config, replicas: nat, schedule: seq<Move>)
    ensures |After(cfg, replicas, schedule).replicas| == replicas
  {
    if schedule == [] {
    } else {
      var before, m := schedule[..|schedule| - 1], schedule[|schedule| - 1];
      ReplicasStay(cfg, replicas, before);
      NextReplicas(cfg, After(cfg, replicas, before), m);
      hide Next;
    }
  }

  lemma NextReplicas(cfg: Config, s: System, m: Move)
    ensures |Next(cfg, s, m).replicas| == |s.replicas|
  {
    hide StoreStep, AllowStep, RecordStep, RememberStep, Cacheable, Lookup, SweepStep, ValidCall;
  }

  /** The breaker has had its say on the request. */
  predicate Asked(q: Request) {
    q.phase.Admitted? || q.phase.Replied? || q.phase.Recorded? ||
    (q.phase.Done? && !q.phase.source.FromCache?)
  }

  /** Nothing but its own question brings a request past the breaker, or makes the breaker answer it. */
  lemma OnlyAskDecides(cfg: Config, s: System, m: Move, id: nat)
    requires id in s.requests ==> !Asked(s.requests[id])
    requires id in Next(cfg, s, m).requests && Asked(Next(cfg, s, m).requests[id])
    ensures m.Ask? && m.id == id && Ready(s, id, m.now) && s.requests[id].phase.Looked?
  {
    hide StoreStep, AllowStep, RecordStep, RememberStep, Cacheable, Lookup, SweepStep, ValidCall;
  }

  /** So on every replica of every fleet the circuit counts trailing failures, opens at the threshold, and probes only while open. */
  lemma FleetCircuit(cfg: Config, replicas: nat, schedule: seq<Move>, i: nat)
    requires i < replicas && cfg.threshold > 0
    ensures
      var s, t := After(cfg, replicas, schedule), TraceOf(cfg, replicas, schedule, i);
      && i < |s.replicas|
      && var c := s.replicas[i].circuit;
         && TrailingFailures(t.Outcomes(|t.steps|), c.failures)
         && (c.Open() <==> c.failures >= cfg.threshold)
         && (c.probing ==> c.Open())
  {
    hide After, Trace.At, Trace.InFlight, Trace.Valid, Trace.Outcomes, TrailingFailures, StepsOf;
    CircuitIsTrace(cfg, replicas, schedule, i);
    var t := TraceOf(cfg, replicas, schedule, i);
    CircuitInvariant(t, |t.steps|);
  }

  /** And between two records an open circuit lets one request through at most, never before its time. */
  lemma FleetOneAdmission(cfg: Config, replicas: nat, schedule: seq<Move>, i: nat, a: nat, b: nat)
    requires i < replicas && cfg.threshold > 0 && a <= b < |StepsOf(cfg, replicas, schedule, i)|
    requires
      var t := TraceOf(cfg, replicas, schedule, i);
      t.At(a).Open() && t.Admits(a) && forall m :: a < m <= b ==> t.steps[m].Allow?
    ensures
      var t := TraceOf(cfg, replicas, schedule, i);
      t.steps[a].now >= t.At(a).openUntil.value && (a < b ==> !t.Admits(b))
  {
    hide After, Trace.At, Trace.InFlight, Trace.Valid, StepsOf, Trace.Admits;
    CircuitIsTrace(cfg, replicas, schedule, i);
    OneAdmissionPerRecord(TraceOf(cfg, replicas, schedule, i), a, b);
  }

  lemma {:induction false} StepsContinue(cfg: Config, replicas: nat, before: seq<Move>, more: seq<Move>, i: nat)
    ensures StepsOf(cfg, replicas, before, i) <= StepsOf(cfg, replicas, before + more, i)
  {
    hide StepOf, After;
    if more == [] {
      assert before + more == before;
    } else {
      var n := |more| - 1;
      assert (before + more)[..|before + more| - 1] == before + more[..n];
      StepsContinue(cfg, replicas, before, more[..n], i);
    }
  }

  /**
   * A replica whose circuit is open and that has no request on its way to Redis never has more than
   * one there until the circuit closes, however many requests arrive and however they interleave.
   */
  lemma FleetSingleProbe(cfg: Config, replicas: nat, before: seq<Move>, more: seq<Move>, i: nat)
    requires i < replicas && cfg.threshold > 0 && InFlightOf(After(cfg, replicas, before), i) == {}
    requires |StepsOf(cfg, replicas, before, i)| <= |StepsOf(cfg, replicas, before + more, i)|
    requires OpenThroughout(TraceOf(cfg, replicas, before + more, i), |StepsOf(cfg, replicas, before, i)|,
                            |StepsOf(cfg, replicas, before + more, i)|)
    ensures |InFlightOf(After(cfg, replicas, before + more), i)| <= 1
  {
    hide After, Trace.At, Trace.InFlight, Trace.Valid, StepsOf, InFlightOf, OpenThroughout;
    var t, u := TraceOf(cfg, replicas, before, i), TraceOf(cfg, replicas, before + more, i);
    CircuitIsTrace(cfg, replicas, before, i);
    CircuitIsTrace(cfg, replicas, before + more, i);
    StepsContinue(cfg, replicas, before, more, i);
    PrefixAgrees(t, u, |t.steps|);
    OthersOnlyFall(u, |t.steps|, |u.steps|);
    ProbeIsInFlight(t, |t.steps|);
  }
}
