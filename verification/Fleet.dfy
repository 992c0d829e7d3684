/**
 * Many replicas, each with its own cache and breaker, over one Redis. A request is not atomic: the
 * cache lookup, the breaker's question, the script, the breaker's record and the cache's remember are
 * separate steps, interleaved in any order with those of every other request on every replica.
 */
module Fleet {
  import opened Prelude
  import opened Store
  import opened StorageKeys
  import opened Redis
  import opened StoreRuns
  import opened BlockCache
  import opened Breaker
  import opened Stack

  /** `cause` is history: the request whose answer put the entry there. */
  datatype Replica = Replica(circuit: Circuit, entries: Entries, cause: map<string, nat>, clock: int)

  /** Where an answer came from. A script answer names its place in the log of executed scripts. */
  datatype Source =
    | FromCache(because: Option<nat>, at: int)
    | FromBreaker
    | FromNetwork
    | FromScript(entry: nat, remembered: Option<int>)

  datatype Phase =
    | Looked
    | Admitted
    | Replied(answer: Answer, entry: Option<nat>)
    | Recorded(answer: Answer, entry: Option<nat>)
    | Done(answer: Answer, source: Source)

  datatype Request = Request(replica: nat, call: Call, phase: Phase)

  /** `log`, `owner` and `replies` record every executed script; `manual` that an operator touched the keyspace. */
  datatype System = System(db: Db, storeClock: int, log: seq<Event>, owner: seq<nat>, replies: seq<Answer>, manual: bool,
                           replicas: seq<Replica>, requests: map<nat, Request>)

  datatype Move =
    | Arrive(id: nat, replica: nat, call: Call, now: int, later: int)
    | Ask(id: nat, now: int)
    | Execute(id: nat, now: int, fault: Fault)
    | Note(id: nat, now: int)
    | Finish(id: nat, now: int)
    | Sweep(replica: nat, now: int)
    | Unblock(key: Key)

  function AtPhase(s: System, id: nat, p: Phase): System
    requires id in s.requests
  {
    s.(requests := s.requests[id := s.requests[id].(phase := p)])
  }

  predicate CanArrive(s: System, id: nat, replica: nat, call: Call, now: int, later: int) {
    id !in s.requests && replica < |s.replicas| && s.replicas[replica].clock <= now <= later && ValidCall(call)
  }

  /** Lookup. The clock is read again for the reported wait. */
  function DoArrive(cfg: Config, s: System, id: nat, replica: nat, call: Call, now: int, later: int): System {
    if !CanArrive(s, id, replica, call, now, later) then s
    else
      var rep, k := s.replicas[replica], call.key.String();
      var hit := if cfg.cached && call.ConsumeCall? then Lookup(rep.entries, k, now) else None;
      var phase := if hit.Some? then Done(Consumed(Ok(Result(true, -1, hit.value - later))), FromCache(Get(rep.cause, k), now))
                   else Looked;
      s.(replicas := s.replicas[replica := rep.(clock := now)], requests := s.requests[id := Request(replica, call, phase)])
  }

  predicate Ready(s: System, id: nat, now: int) {
    id in s.requests && s.requests[id].replica < |s.replicas| && s.replicas[s.requests[id].replica].clock <= now
  }

  function DoAsk(cfg: Config, s: System, id: nat, now: int): System {
    if !Ready(s, id, now) || !s.requests[id].phase.Looked? then s
    else
      var q := s.requests[id];
      var rep := s.replicas[q.replica];
      var (c, admitted) := AllowStep(rep.circuit, cfg.threshold, now);
      AtPhase(s, id, if admitted then Admitted else Done(Failed(q.call), FromBreaker))
        .(replicas := s.replicas[q.replica := rep.(circuit := c, clock := now)])
  }

  predicate CanExecute(s: System, id: nat, now: int) {
    id in s.requests && s.requests[id].phase.Admitted? && s.storeClock <= now
  }

  /** The script runs at a store instant, unless the request is lost; its reply may be lost too. */
  function DoExecute(cfg: Config, s: System, id: nat, now: int, fault: Fault): System {
    if !CanExecute(s, id, now) then s
    else
      var q := s.requests[id];
      if fault.LostRequest? then AtPhase(s, id, Replied(Failed(q.call), None))
      else
        var e := Event(now, q.call);
        var (db, a) := StoreStep(s.db, cfg.prefix, e);
        AtPhase(s, id, if fault.Healthy? then Replied(a, Some(|s.log|)) else Replied(Failed(q.call), None))
          .(db := db, storeClock := now, log := s.log + [e], owner := s.owner + [id], replies := s.replies + [a])
  }

  function DoNote(cfg: Config, s: System, id: nat, now: int): System {
    if !Ready(s, id, now) || !s.requests[id].phase.Replied? then s
    else
      var q := s.requests[id];
      var rep := s.replicas[q.replica];
      var c := RecordStep(rep.circuit, cfg.threshold, cfg.cooldown, Succeeded(q.phase.answer), now);
      AtPhase(s, id, Recorded(q.phase.answer, q.phase.entry))
        .(replicas := s.replicas[q.replica := rep.(circuit := c, clock := now)])
  }

  function DoFinish(cfg: Config, s: System, id: nat, now: int): System {
    if !Ready(s, id, now) || !s.requests[id].phase.Recorded? then s
    else
      var q := s.requests[id];
      var rep, k, a := s.replicas[q.replica], q.call.key.String(), q.phase.answer;
      if cfg.cached && Cacheable(a) then
        var entries := RememberStep(rep.entries, k, a.result.value.retryAfter, cfg.maxLen, cfg.maxTTL, now);
        AtPhase(s, id, Done(a, if q.phase.entry.Some? then FromScript(q.phase.entry.value, Some(now)) else FromNetwork))
          .(replicas := s.replicas[q.replica := rep.(entries := entries, clock := now,
                                                     cause := if k in entries then rep.cause[k := id] else rep.cause)])
      else
        AtPhase(s, id, Done(a, if q.phase.entry.Some? then FromScript(q.phase.entry.value, None) else FromNetwork))
          .(replicas := s.replicas[q.replica := rep.(clock := now)])
  }

  function DoSweep(s: System, replica: nat, now: int): System {
    if replica >= |s.replicas| || now < s.replicas[replica].clock then s
    else
      var rep := s.replicas[replica];
      s.(replicas := s.replicas[replica := rep.(entries := SweepStep(rep.entries, now), clock := now)])
  }

  /** A step; a move that is not possible changes nothing. */
  function Next(cfg: Config, s: System, m: Move): System {
    match m
    case Arrive(id, replica, call, now, later) => DoArrive(cfg, s, id, replica, call, now, later)
    case Ask(id, now) => DoAsk(cfg, s, id, now)
    case Execute(id, now, fault) => DoExecute(cfg, s, id, now, fault)
    case Note(id, now) => DoNote(cfg, s, id, now)
    case Finish(id, now) => DoFinish(cfg, s, id, now)
    case Sweep(replica, now) => DoSweep(s, replica, now)
    case Unblock(key) => s.(db := s.db - {CounterKey(cfg.prefix, key), BlockKey(cfg.prefix, key)}, manual := true)
  }

  function Initial(replicas: nat): System {
    System(map[], 0, [], [], [], false, seq(replicas, _ => Replica(CLOSED, map[], map[], 0)), map[])
  }

  /** The system after a schedule of moves. */
  function After(cfg: Config, replicas: nat, schedule: seq<Move>): System {
    if schedule == [] then Initial(replicas)
    else Next(cfg, After(cfg, replicas, schedule[..|schedule| - 1]), schedule[|schedule| - 1])
  }

  /** The system after more moves. */
  function Continue(cfg: Config, s: System, more: seq<Move>): System {
    if more == [] then s else Next(cfg, Continue(cfg, s, more[..|more| - 1]), more[|more| - 1])
  }

  lemma {:induction false} AfterContinues(cfg: Config, replicas: nat, before: seq<Move>, more: seq<Move>)
    ensures After(cfg, replicas, before + more) == Continue(cfg, After(cfg, replicas, before), more)
  {
    hide Next;
    if more == [] {
      assert before + more == before;
    } else {
      var n := |more| - 1;
      assert (before + more)[..|before + more| - 1] == before + more[..n];
      AfterContinues(cfg, replicas, before, more[..n]);
    }
  }

  // ---------------------------------------------------------------- invariant

  function LogRun(cfg: Config, s: System): Run {
    Run(cfg.prefix, map[], s.log)
  }

  /** The log is a run of the store: ordered, valid, and, unless an operator interfered, the keyspace is its result. */
  ghost predicate LogOk(cfg: Config, s: System) {
    && |s.owner| == |s.log| == |s.replies|
    && ValidCalls(LogRun(cfg, s))
    && (forall i :: 0 <= i < |s.log| ==> s.log[i].now <= s.storeClock)
    && (!s.manual ==> s.db == LogRun(cfg, s).State(|s.log|))
    && (!s.manual ==> forall i :: 0 <= i < |s.log| ==> s.replies[i] == LogRun(cfg, s).Answer(i))
  }

  /** Entry m of the log is this request's script and `a` its reply. */
  predicate Executed(s: System, id: nat, call: Call, a: Answer, m: nat) {
    && |s.owner| == |s.log| == |s.replies|
    && m < |s.log| && s.owner[m] == id && s.log[m].call == call && s.replies[m] == a
  }

  /** A finished request on this replica and key whose blocked script answer was handed to the cache. */
  predicate Justifies(s: System, id: nat, replica: nat, k: string) {
    && id in s.requests && s.requests[id].replica == replica
    && s.requests[id].call.key.String() == k
    && s.requests[id].phase.Done? && Cacheable(s.requests[id].phase.answer)
    && s.requests[id].phase.source.FromScript?
    && s.requests[id].phase.source.remembered.Some?
    && Executed(s, id, s.requests[id].call, s.requests[id].phase.answer, s.requests[id].phase.source.entry)
  }

  function RememberedAt(s: System, id: nat): int
    requires id in s.requests && Justifies(s, id, s.requests[id].replica, s.requests[id].call.key.String())
  {
    s.requests[id].phase.source.remembered.value
  }

  /** The instant up to which the answer may be repeated. */
  function TrustedUntil(cfg: Config, s: System, id: nat): int
    requires id in s.requests && Justifies(s, id, s.requests[id].replica, s.requests[id].call.key.String())
  {
    RememberedAt(s, id) + Trust(s.requests[id].phase.answer.result.value.retryAfter, cfg.maxTTL)
  }

  predicate RequestOk(cfg: Config, s: System, id: nat)
    requires id in s.requests
  {
    var q := s.requests[id];
    && ValidCall(q.call)
    && match q.phase
       case Looked => true
       case Admitted => true
       case Replied(a, m) => if m.Some? then Executed(s, id, q.call, a, m.value) else !Succeeded(a)
       case Recorded(a, m) => if m.Some? then Executed(s, id, q.call, a, m.value) else !Succeeded(a)
       case Done(a, FromBreaker) => !Succeeded(a)
       case Done(a, FromNetwork) => !Succeeded(a)
       case Done(a, FromScript(m, _)) => Executed(s, id, q.call, a, m)
       case Done(a, FromCache(because, t)) =>
         && a.Consumed? && a.result.Ok? && a.result.value.blocked && a.result.value.count == -1
         && because.Some?
         && Justifies(s, because.value, q.replica, q.call.key.String())
         && RememberedAt(s, because.value) <= t < TrustedUntil(cfg, s, because.value)
  }

  predicate EntryOk(cfg: Config, s: System, replica: nat, k: string)
    requires replica < |s.replicas| && k in s.replicas[replica].entries
  {
    var rep := s.replicas[replica];
    && k in rep.cause
    && Justifies(s, rep.cause[k], replica, k)
    && RememberedAt(s, rep.cause[k]) <= rep.clock
    && rep.entries[k] == TrustedUntil(cfg, s, rep.cause[k])
  }

  ghost predicate Inv(cfg: Config, s: System) {
    && LogOk(cfg, s)
    && (forall id :: id in s.requests ==> RequestOk(cfg, s, id))
    && (forall i, k :: 0 <= i < |s.replicas| && k in s.replicas[i].entries ==> EntryOk(cfg, s, i, k))
    && (forall i :: 0 <= i < |s.replicas| && cfg.maxLen > 0 ==> |s.replicas[i].entries| <= cfg.maxLen)
  }

  // ---------------------------------------------------------------- what a step keeps

  /** History only grows, and a finished request stays as it is. */
  predicate Extends(s: System, s': System) {
    && |s.owner| == |s.log| == |s.replies| && |s'.owner| == |s'.log| == |s'.replies|
    && s.log <= s'.log && s.owner <= s'.owner && s.replies <= s'.replies
    && forall id :: id in s.requests && s.requests[id].phase.Done? ==> id in s'.requests && s'.requests[id] == s.requests[id]
  }

  lemma ExecutedStays(s: System, s': System, id: nat, call: Call, a: Answer, m: nat)
    requires Extends(s, s') && Executed(s, id, call, a, m)
    ensures Executed(s', id, call, a, m)
  {
  }

  lemma JustifiesStays(s: System, s': System, id: nat, replica: nat, k: string)
    requires Extends(s, s') && Justifies(s, id, replica, k)
    ensures Justifies(s', id, replica, k) && s'.requests[id] == s.requests[id]
  {
    DoneStays(s, s', id);
    ExecutedStays(s, s', id, s.requests[id].call, s.requests[id].phase.answer, s.requests[id].phase.source.entry);
  }

  lemma DoneStays(s: System, s': System, id: nat)
    requires Extends(s, s') && id in s.requests && s.requests[id].phase.Done?
    ensures id in s'.requests && s'.requests[id] == s.requests[id]
  {
  }

  lemma RequestStays(cfg: Config, s: System, s': System, id: nat)
    requires Extends(s, s') && id in s.requests && RequestOk(cfg, s, id)
    requires id in s'.requests && s'.requests[id] == s.requests[id]
    ensures RequestOk(cfg, s', id)
  {
    var q := s.requests[id];
    match q.phase {
      case Looked =>
      case Admitted =>
      case Replied(a, m) => if m.Some? { ExecutedStays(s, s', id, q.call, a, m.value); }
      case Recorded(a, m) => if m.Some? { ExecutedStays(s, s', id, q.call, a, m.value); }
      case Done(a, FromBreaker) =>
      case Done(a, FromNetwork) =>
      case Done(a, FromScript(m, _)) => ExecutedStays(s, s', id, q.call, a, m);
      case Done(a, FromCache(because, t)) =>
        JustifiesStays(s, s', because.value, q.replica, q.call.key.String());
    }
  }

  lemma EntryStays(cfg: Config, s: System, s': System, i: nat, k: string)
    requires Extends(s, s') && i < |s.replicas| && k in s.replicas[i].entries && EntryOk(cfg, s, i, k)
    requires i < |s'.replicas| && k in s'.replicas[i].entries && k in s'.replicas[i].cause
    requires s'.replicas[i].entries[k] == s.replicas[i].entries[k] && s'.replicas[i].cause[k] == s.replicas[i].cause[k]
    requires s.replicas[i].clock <= s'.replicas[i].clock
    ensures EntryOk(cfg, s', i, k)
  {
    JustifiesStays(s, s', s.replicas[i].cause[k], i, k);
  }

  predicate LogKept(s: System, s': System) {
    && s'.log == s.log && s'.owner == s.owner && s'.replies == s.replies && s'.storeClock == s.storeClock
    && (s'.manual || (s'.db == s.db && s'.manual == s.manual))
  }

  lemma LogStays(cfg: Config, s: System, s': System)
    requires LogOk(cfg, s) && LogKept(s, s')
    ensures LogOk(cfg, s')
  {
  }

  /** The parts of the invariant, one at a time. */
  lemma InvOf(cfg: Config, s: System)
    requires Inv(cfg, s)
    ensures LogOk(cfg, s) && LogsAligned(s)
  {
  }

  /** Only replica i's clock and circuit move: its cache is as before. */
  predicate CachesKept(s: System, s': System) {
    && |s'.replicas| == |s.replicas|
    && forall i :: 0 <= i < |s.replicas| ==>
                     && s'.replicas[i].entries == s.replicas[i].entries
                     && s'.replicas[i].cause == s.replicas[i].cause
                     && s.replicas[i].clock <= s'.replicas[i].clock
  }

  predicate LogsAligned(s: System) {
    |s.owner| == |s.log| == |s.replies|
  }

  /** A step that touches one request and no cache. */
  predicate OneRequest(s: System, s': System, id: nat) {
    && Extends(s, s') && CachesKept(s, s')
    && s'.requests.Keys == s.requests.Keys + {id}
    && forall x :: x in s.requests && x != id ==> s'.requests[x] == s.requests[x]
  }

  /** Such a step keeps the invariant if that request is in order. */
  lemma InvKept(cfg: Config, s: System, s': System, id: nat)
    requires Inv(cfg, s) && LogOk(cfg, s') && OneRequest(s, s', id) && RequestOk(cfg, s', id)
    ensures Inv(cfg, s')
  {
    hide LogOk, Extends;
    forall x | x in s'.requests ensures RequestOk(cfg, s', x) {
      if x != id {
        RequestStays(cfg, s, s', x);
      }
    }
    forall i, k | 0 <= i < |s'.replicas| && k in s'.replicas[i].entries ensures EntryOk(cfg, s', i, k) {
      EntryStays(cfg, s, s', i, k);
    }
  }

  lemma ArriveShape(cfg: Config, s: System, id: nat, replica: nat, call: Call, now: int, later: int)
    requires CanArrive(s, id, replica, call, now, later) && LogsAligned(s)
    ensures
      var s' := DoArrive(cfg, s, id, replica, call, now, later);
      LogKept(s, s') && OneRequest(s, s', id)
  {
  }

  lemma ArriveKeeps(cfg: Config, s: System, id: nat, replica: nat, call: Call, now: int, later: int)
    requires Inv(cfg, s)
    ensures Inv(cfg, DoArrive(cfg, s, id, replica, call, now, later))
  {
    hide Inv;
    var s' := DoArrive(cfg, s, id, replica, call, now, later);
    if CanArrive(s, id, replica, call, now, later) {
      InvOf(cfg, s);
      ArriveShape(cfg, s, id, replica, call, now, later);
      hide LogOk, Extends, CachesKept, OneRequest, Justifies;
      LogStays(cfg, s, s');
      if s'.requests[id].phase.Done? {
        assert Extends(s, s') by { OneExtends(s, s', id); }
        HitJustified(cfg, s, s', replica, call.key.String(), now);
      }
      InvKept(cfg, s, s', id);
    }
  }

  lemma OneExtends(s: System, s': System, id: nat)
    requires OneRequest(s, s', id)
    ensures Extends(s, s')
  {
  }

  lemma HitJustified(cfg: Config, s: System, s': System, replica: nat, k: string, now: int)
    requires Inv(cfg, s) && Extends(s, s') && replica < |s.replicas|
    requires s.replicas[replica].clock <= now && Lookup(s.replicas[replica].entries, k, now).Some?
    ensures Get(s.replicas[replica].cause, k).Some?
    ensures
      var id := s.replicas[replica].cause[k];
      Justifies(s', id, replica, k) && RememberedAt(s', id) <= now < TrustedUntil(cfg, s', id)
  {
    hide LogOk, RequestOk, Extends;
    assert EntryOk(cfg, s, replica, k);
    JustifiesStays(s, s', s.replicas[replica].cause[k], replica, k);
  }

  lemma InvRequest(cfg: Config, s: System, id: nat)
    requires Inv(cfg, s) && id in s.requests
    ensures RequestOk(cfg, s, id)
  {
    hide RequestOk, EntryOk, LogOk;
  }

  lemma InvEntry(cfg: Config, s: System, i: nat, k: string)
    requires Inv(cfg, s) && i < |s.replicas| && k in s.replicas[i].entries
    ensures EntryOk(cfg, s, i, k)
  {
    hide RequestOk, EntryOk, LogOk;
  }

  lemma AskShape(cfg: Config, s: System, id: nat, now: int)
    requires Ready(s, id, now) && s.requests[id].phase.Looked? && LogsAligned(s)
    ensures LogKept(s, DoAsk(cfg, s, id, now)) && OneRequest(s, DoAsk(cfg, s, id, now), id)
  {
    hide AllowStep;
  }

  lemma AskKeeps(cfg: Config, s: System, id: nat, now: int)
    requires Inv(cfg, s)
    ensures Inv(cfg, DoAsk(cfg, s, id, now))
  {
    hide Inv;
    var s' := DoAsk(cfg, s, id, now);
    if Ready(s, id, now) && s.requests[id].phase.Looked? {
      InvOf(cfg, s);
      InvRequest(cfg, s, id);
      AskShape(cfg, s, id, now);
      hide LogOk, ValidCall, AllowStep, Extends, CachesKept, OneRequest, Justifies;
      LogStays(cfg, s, s');
      InvKept(cfg, s, s', id);
    }
  }

  lemma NoteShape(cfg: Config, s: System, id: nat, now: int)
    requires Ready(s, id, now) && s.requests[id].phase.Replied? && LogsAligned(s)
    ensures LogKept(s, DoNote(cfg, s, id, now)) && OneRequest(s, DoNote(cfg, s, id, now), id)
  {
    hide RecordStep;
  }

  lemma NoteKeeps(cfg: Config, s: System, id: nat, now: int)
    requires Inv(cfg, s)
    ensures Inv(cfg, DoNote(cfg, s, id, now))
  {
    hide Inv;
    var s' := DoNote(cfg, s, id, now);
    if Ready(s, id, now) && s.requests[id].phase.Replied? {
      InvOf(cfg, s);
      InvRequest(cfg, s, id);
      NoteShape(cfg, s, id, now);
      hide LogOk, ValidCall, RecordStep, Extends, CachesKept, OneRequest, Justifies;
      LogStays(cfg, s, s');
      InvKept(cfg, s, s', id);
    }
  }

  lemma {:induction false} RunPrefix(r: Run, e: Event, n: nat)
    requires n <= |r.events|
    ensures r.(events := r.events + [e]).State(n) == r.State(n)
    ensures n < |r.events| ==> r.(events := r.events + [e]).Answer(n) == r.Answer(n)
  {
    hide StoreStep;
    if n == 0 {
    } else {
      RunPrefix(r, e, n - 1);
    }
  }

  lemma LogGrows(cfg: Config, s: System, e: Event, id: nat, s': System)
    requires LogOk(cfg, s) && ValidCall(e.call) && s.storeClock <= e.now
    requires s'.storeClock == e.now && s'.manual == s.manual
    requires s'.log == s.log + [e] && s'.owner == s.owner + [id]
    requires s'.replies == s.replies + [StoreStep(s.db, cfg.prefix, e).1]
    requires s'.db == StoreStep(s.db, cfg.prefix, e).0
    ensures LogOk(cfg, s')
  {
    hide StoreStep, ValidCall;
    var r, r' := LogRun(cfg, s), LogRun(cfg, s');
    assert r' == r.(events := r.events + [e]);
    forall n | 0 <= n <= |r.events| ensures r'.State(n) == r.State(n) && (n < |r.events| ==> r'.Answer(n) == r.Answer(n)) {
      RunPrefix(r, e, n);
    }
    assert ValidCalls(r') by {
      forall i | 0 <= i < |r'.events| ensures ValidCall(r'.events[i].call) && ValidName(r'.events[i].call.key.limiter) {
        if i < |r.events| { assert ValidCall(r.events[i].call); }
        ValidCallName(r'.events[i].call);
      }
    }
    hide Run.State, Run.Answer, ValidCalls;
    RunLast(r', |r.events|);
  }

  lemma ValidCallName(call: Call)
    requires ValidCall(call)
    ensures ValidName(call.key.limiter)
  {
  }

  lemma RunLast(r: Run, n: nat)
    requires n < |r.events|
    ensures (r.State(n + 1), r.Answer(n)) == StoreStep(r.State(n), r.prefix, r.events[n])
  {
    hide StoreStep;
  }

  lemma ExecuteShape(cfg: Config, s: System, id: nat, now: int, fault: Fault)
    requires CanExecute(s, id, now) && LogsAligned(s)
    ensures OneRequest(s, DoExecute(cfg, s, id, now, fault), id)
  {
    hide StoreStep;
  }

  lemma ExecuteKeeps(cfg: Config, s: System, id: nat, now: int, fault: Fault)
    requires Inv(cfg, s)
    ensures Inv(cfg, DoExecute(cfg, s, id, now, fault))
  {
    hide StoreStep, LogOk, Inv;
    var s' := DoExecute(cfg, s, id, now, fault);
    if CanExecute(s, id, now) {
      InvOf(cfg, s);
      InvRequest(cfg, s, id);
      ExecuteShape(cfg, s, id, now, fault);
      hide ValidCall, Extends, CachesKept, OneRequest, Justifies;
      if fault.LostRequest? {
        LogStays(cfg, s, s');
      } else {
        LogGrows(cfg, s, Event(now, s.requests[id].call), id, s');
      }
      InvKept(cfg, s, s', id);
    }
  }

  lemma FinishShape(cfg: Config, s: System, id: nat, now: int)
    requires Ready(s, id, now) && s.requests[id].phase.Recorded? && LogsAligned(s)
    ensures
      var s' := DoFinish(cfg, s, id, now);
      && LogKept(s, s') && Extends(s, s')
      && (!(cfg.cached && Cacheable(s.requests[id].phase.answer)) ==> OneRequest(s, s', id))
  {
    hide RememberStep, Cacheable;
  }

  lemma FinishRequest(cfg: Config, s: System, id: nat, now: int)
    requires Ready(s, id, now) && s.requests[id].phase.Recorded? && RequestOk(cfg, s, id)
    requires LogKept(s, DoFinish(cfg, s, id, now))
    ensures
      var s' := DoFinish(cfg, s, id, now);
      id in s'.requests && RequestOk(cfg, s', id)
  {
    hide RememberStep, Cacheable, ValidCall, Justifies, Succeeded;
  }

  lemma FinishKeeps(cfg: Config, s: System, id: nat, now: int)
    requires Inv(cfg, s)
    ensures Inv(cfg, DoFinish(cfg, s, id, now))
  {
    hide Inv;
    var s' := DoFinish(cfg, s, id, now);
    if Ready(s, id, now) && s.requests[id].phase.Recorded? {
      InvOf(cfg, s);
      InvRequest(cfg, s, id);
      FinishShape(cfg, s, id, now);
      FinishRequest(cfg, s, id, now);
      hide LogOk, RequestOk, LogKept, DoFinish, Cacheable, Extends, CachesKept, OneRequest;
      LogStays(cfg, s, s');
      if cfg.cached && Cacheable(s.requests[id].phase.answer) {
        RememberKeeps(cfg, s, s', id, now);
      } else {
        InvKept(cfg, s, s', id);
      }
    }
  }

  /** The replica that remembers: its clock moves on and one entry, with its cause, may be written. */
  lemma RememberEffect(cfg: Config, s: System, id: nat, now: int)
    requires Ready(s, id, now) && s.requests[id].phase.Recorded? && RequestOk(cfg, s, id)
    requires cfg.cached && Cacheable(s.requests[id].phase.answer) && LogKept(s, DoFinish(cfg, s, id, now))
    ensures
      var s', q := DoFinish(cfg, s, id, now), s.requests[id];
      var k := q.call.key.String();
      && |s'.replicas| == |s.replicas|
      && s'.requests.Keys == s.requests.Keys
      && (forall x :: x in s.requests && x != id ==> s'.requests[x] == s.requests[x])
      && Justifies(s', id, q.replica, k)
      && RememberedAt(s', id) == s'.replicas[q.replica].clock
      && (forall i :: 0 <= i < |s.replicas| ==> s.replicas[i].clock <= s'.replicas[i].clock)
      && s'.replicas[q.replica].entries == RememberStep(s.replicas[q.replica].entries, k,
                                                        q.phase.answer.result.value.retryAfter, cfg.maxLen, cfg.maxTTL, now)
      && (k in s'.replicas[q.replica].entries ==>
            k in s'.replicas[q.replica].cause && s'.replicas[q.replica].cause[k] == id &&
            s'.replicas[q.replica].entries[k] == TrustedUntil(cfg, s', id))
      && (forall i, l :: 0 <= i < |s.replicas| && (i != q.replica || l != k) && l in s'.replicas[i].entries ==>
                           && l in s.replicas[i].entries && s'.replicas[i].entries[l] == s.replicas[i].entries[l]
                           && Get(s'.replicas[i].cause, l) == Get(s.replicas[i].cause, l))
      && (forall i :: 0 <= i < |s.replicas| && i != q.replica ==> s'.replicas[i] == s.replicas[i])
  {
    hide ValidCall;
  }

  lemma RememberKeeps(cfg: Config, s: System, s': System, id: nat, now: int)
    requires Inv(cfg, s) && Ready(s, id, now) && s.requests[id].phase.Recorded? && s' == DoFinish(cfg, s, id, now)
    requires cfg.cached && Cacheable(s.requests[id].phase.answer) && LogKept(s, s')
    requires LogOk(cfg, s') && Extends(s, s') && RequestOk(cfg, s, id)
    requires id in s'.requests && RequestOk(cfg, s', id)
    ensures Inv(cfg, s')
  {
    hide LogOk, Extends, RequestOk, EntryOk, DoFinish, LogKept, Justifies, RememberedAt, TrustedUntil, RememberStep;
    RememberEffect(cfg, s, id, now);
    forall x | x in s'.requests ensures RequestOk(cfg, s', x) {
      hide Inv;
      if x != id {
        InvRequest(cfg, s, x);
        RequestStays(cfg, s, s', x);
      }
    }
    forall i, l | 0 <= i < |s'.replicas| && l in s'.replicas[i].entries ensures EntryOk(cfg, s', i, l) {
      hide Inv;
      RememberEntry(cfg, s, s', id, now, i, l);
    }
    var q := s.requests[id];
    forall i | 0 <= i < |s'.replicas| && cfg.maxLen > 0 ensures |s'.replicas[i].entries| <= cfg.maxLen {
      RememberBounded(s.replicas[q.replica].entries, q.call.key.String(), q.phase.answer.result.value.retryAfter,
                      cfg.maxLen, cfg.maxTTL, now);
    }
  }

  lemma RememberEntry(cfg: Config, s: System, s': System, id: nat, now: int, i: nat, l: string)
    requires Inv(cfg, s) && Ready(s, id, now) && s.requests[id].phase.Recorded? && s' == DoFinish(cfg, s, id, now)
    requires cfg.cached && Cacheable(s.requests[id].phase.answer) && LogKept(s, s')
    requires Extends(s, s') && RequestOk(cfg, s, id)
    requires i < |s'.replicas| && l in s'.replicas[i].entries
    ensures EntryOk(cfg, s', i, l)
  {
    hide LogOk, Extends, RequestOk, DoFinish, LogKept, Justifies, RememberedAt, TrustedUntil, RememberStep, Inv;
    RememberEffect(cfg, s, id, now);
    if i != s.requests[id].replica || l != s.requests[id].call.key.String() {
      InvEntry(cfg, s, i, l);
      EntryStays(cfg, s, s', i, l);
    }
  }

  lemma SweepKeeps(cfg: Config, s: System, replica: nat, now: int)
    requires Inv(cfg, s)
    ensures Inv(cfg, DoSweep(s, replica, now))
  {
    hide Inv;
    var s' := DoSweep(s, replica, now);
    InvOf(cfg, s);
    SweepShape(s, replica, now);
    hide LogOk, Extends, LogKept, DoSweep;
    LogStays(cfg, s, s');
    CachesShrunk(cfg, s, s');
  }

  lemma SweepShape(s: System, replica: nat, now: int)
    requires LogsAligned(s)
    ensures
      var s' := DoSweep(s, replica, now);
      && Extends(s, s') && LogKept(s, s') && s'.requests == s.requests && |s'.replicas| == |s.replicas|
      && (forall i :: 0 <= i < |s.replicas| ==>
                        && s'.replicas[i].entries.Keys <= s.replicas[i].entries.Keys
                        && s'.replicas[i].cause == s.replicas[i].cause
                        && s.replicas[i].clock <= s'.replicas[i].clock)
      && (forall i, k :: 0 <= i < |s.replicas| && k in s'.replicas[i].entries ==>
                           s'.replicas[i].entries[k] == s.replicas[i].entries[k])
  {
  }

  /** A step that touches no request and at most drops cache entries. */
  lemma CachesShrunk(cfg: Config, s: System, s': System)
    requires Inv(cfg, s) && LogOk(cfg, s') && Extends(s, s') && s'.requests == s.requests && |s'.replicas| == |s.replicas|
    requires forall i :: 0 <= i < |s.replicas| ==>
                           && s'.replicas[i].entries.Keys <= s.replicas[i].entries.Keys
                           && s'.replicas[i].cause == s.replicas[i].cause
                           && s.replicas[i].clock <= s'.replicas[i].clock
    requires forall i, k :: 0 <= i < |s.replicas| && k in s'.replicas[i].entries ==>
                              s'.replicas[i].entries[k] == s.replicas[i].entries[k]
    ensures Inv(cfg, s')
  {
    hide LogOk, RequestOk, Extends;
    forall x | x in s'.requests ensures RequestOk(cfg, s', x) {
      RequestStays(cfg, s, s', x);
    }
    forall i, l | 0 <= i < |s'.replicas| && l in s'.replicas[i].entries ensures EntryOk(cfg, s', i, l) {
      assert EntryOk(cfg, s, i, l);
      EntryStays(cfg, s, s', i, l);
    }
    forall i | 0 <= i < |s'.replicas| && cfg.maxLen > 0 ensures |s'.replicas[i].entries| <= cfg.maxLen {
      SubsetSize(s'.replicas[i].entries.Keys, s.replicas[i].entries.Keys);
    }
  }

  lemma UnblockKeeps(cfg: Config, s: System, key: Key)
    requires Inv(cfg, s)
    ensures Inv(cfg, Next(cfg, s, Unblock(key)))
  {
    hide Inv;
    var s' := Next(cfg, s, Unblock(key));
    InvOf(cfg, s);
    hide LogOk;
    LogStays(cfg, s, s');
    CachesShrunk(cfg, s, s');
  }

  lemma NextKeeps(cfg: Config, s: System, m: Move)
    requires Inv(cfg, s)
    ensures Inv(cfg, Next(cfg, s, m))
  {
    hide Inv, DoArrive, DoAsk, DoExecute, DoNote, DoFinish, DoSweep;
    match m {
      case Arrive(id, replica, call, now, later) => ArriveKeeps(cfg, s, id, replica, call, now, later);
      case Ask(id, now) => AskKeeps(cfg, s, id, now);
      case Execute(id, now, fault) => ExecuteKeeps(cfg, s, id, now, fault);
      case Note(id, now) => NoteKeeps(cfg, s, id, now);
      case Finish(id, now) => FinishKeeps(cfg, s, id, now);
      case Sweep(replica, now) => SweepKeeps(cfg, s, replica, now);
      case Unblock(key) => UnblockKeeps(cfg, s, key);
    }
  }

  /** The invariant holds after every schedule. */
  lemma {:induction false} InvAlways(cfg: Config, replicas: nat, schedule: seq<Move>)
    ensures Inv(cfg, After(cfg, replicas, schedule))
  {
    if schedule == [] {
    } else {
      hide Inv, Next;
      var before := schedule[..|schedule| - 1];
      InvAlways(cfg, replicas, before);
      NextKeeps(cfg, After(cfg, replicas, before), schedule[|schedule| - 1]);
    }
  }

  // ---------------------------------------------------------------- what it buys

  /** A request answered from the cache, at time t on its replica. */
  predicate AnsweredFromCache(s: System, id: nat) {
    id in s.requests && s.requests[id].phase.Done? && s.requests[id].phase.source.FromCache?
  }

  /**
   * Every hit, under every interleaving, repeats a blocked answer that the script gave to an earlier
   * request for the same key, remembered on the same replica at some t2 <= t < t2 + min(wait, cap).
   */
  lemma HitsAreJustified(cfg: Config, replicas: nat, schedule: seq<Move>, id: nat)
    requires AnsweredFromCache(After(cfg, replicas, schedule), id)
    ensures
      var s := After(cfg, replicas, schedule);
      var t, because := s.requests[id].phase.source.at, s.requests[id].phase.source.because;
      && because.Some?
      && Justifies(s, because.value, s.requests[id].replica, s.requests[id].call.key.String())
      && RememberedAt(s, because.value) <= t < TrustedUntil(cfg, s, because.value)
      && s.log[s.requests[because.value].phase.source.entry].call.key == s.requests[id].call.key
  {
    InvAlways(cfg, replicas, schedule);
    var s := After(cfg, replicas, schedule);
    InvRequest(cfg, s, id);
    var j := s.requests[id].phase.source.because.value;
    hide After;
    assert Justifies(s, j, s.requests[id].replica, s.requests[id].call.key.String());
    InvRequest(cfg, s, j);
    KeyStringInjective(s.requests[id].call.key, s.requests[j].call.key);
  }

  /** No cache ever holds more than its capacity. */
  lemma CapacityHolds(cfg: Config, replicas: nat, schedule: seq<Move>, i: nat)
    requires cfg.maxLen > 0 && i < |After(cfg, replicas, schedule).replicas|
    ensures |After(cfg, replicas, schedule).replicas[i].entries| <= cfg.maxLen
  {
    InvAlways(cfg, replicas, schedule);
    hide After, LogOk, RequestOk, EntryOk;
  }
}
