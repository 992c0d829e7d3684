/** How much a whole fleet lets through: the bounds of one run carried over to every interleaving. */
module FleetBounds {
  import opened Prelude
  import opened Store
  import opened StorageKeys
  import opened StoreRuns
  import opened BlockCache
  import opened Stack
  import opened Fleet
  import WindowRuns
  import BucketRuns

  datatype Algorithm = FixedWindow | TokenBucket

  /** A go-ahead, not an error, from this algorithm. */
  predicate IsGrant(a: Answer, algorithm: Algorithm) {
    match algorithm
    case FixedWindow => a.Consumed? && a.result.Ok? && !a.result.value.blocked
    case TokenBucket => a.Taken? && a.take.Ok? && a.take.value.allowed
  }

  /** The request was told to proceed, without error, by a call on the key. */
  predicate AllowedOn(s: System, id: nat, key: Key, algorithm: Algorithm) {
    && id in s.requests && s.requests[id].phase.Done? && IsGrant(s.requests[id].phase.answer, algorithm)
    && (s.requests[id].call.ConsumeCall? <==> algorithm.FixedWindow?)
    && SameStorage(s.requests[id].call.key, key)
  }

  /** Only the script ever allows: an error is no go-ahead, and a cache can only refuse. */
  lemma AllowsComeFromScripts(cfg: Config, s: System, id: nat, key: Key, algorithm: Algorithm)
    requires Inv(cfg, s) && AllowedOn(s, id, key, algorithm)
    ensures s.requests[id].phase.source.FromScript?
    ensures Executed(s, id, s.requests[id].call, s.requests[id].phase.answer, s.requests[id].phase.source.entry)
  {
    InvRequest(cfg, s, id);
    hide Inv;
  }

  /** The store instant at which an allowed request was counted. */
  function CountedAt(s: System, id: nat): int {
    if id in s.requests && s.requests[id].phase.Done? && s.requests[id].phase.source.FromScript?
       && s.requests[id].phase.source.entry < |s.log|
    then s.log[s.requests[id].phase.source.entry].now else 0
  }

  /** The requests allowed on the key whose script ran in [from, to). */
  function AllowedIn(s: System, key: Key, algorithm: Algorithm, from: int, to: int): set<nat> {
    set id | id in s.requests && AllowedOn(s, id, key, algorithm) && from <= CountedAt(s, id) < to
  }

  predicate Ordered(log: seq<Event>) {
    forall i, j :: 0 <= i <= j < |log| ==> log[i].now <= log[j].now
  }

  /** How many entries of an ordered log lie before t. */
  function EntriesBefore(log: seq<Event>, t: int): (i: nat)
    requires Ordered(log)
    ensures i <= |log|
    ensures forall j :: 0 <= j < i ==> log[j].now < t
    ensures forall j :: i <= j < |log| ==> log[j].now >= t
  {
    if log == [] then 0
    else if log[|log| - 1].now < t then |log|
    else EntriesBefore(log[..|log| - 1], t)
  }

  lemma {:induction false} EntriesMonotone(log: seq<Event>, t: int, u: int)
    requires t <= u && Ordered(log)
    ensures EntriesBefore(log, t) <= EntriesBefore(log, u)
  {
    if log == [] {
    } else {
      EntriesMonotone(log[..|log| - 1], t, u);
    }
  }

  predicate GrantedAt(r: Run, key: Key, algorithm: Algorithm, m: nat)
    requires m < |r.events|
  {
    if algorithm.FixedWindow? then WindowRuns.AllowedAt(r, key, m) else BucketRuns.TakenAt(r, key, m)
  }

  /** How many of the log's entries i..n-1 are go-aheads on the key. */
  function Grants(r: Run, key: Key, algorithm: Algorithm, i: nat, n: nat): nat
    requires i <= n <= |r.events|
  {
    if algorithm.FixedWindow? then WindowRuns.Allows(r, key, i, n) else BucketRuns.Admitted(r, key, i, n)
  }

  /** The requests behind them. */
  function Owners(s: System, r: Run, key: Key, algorithm: Algorithm, i: nat, n: nat): set<nat>
    requires i <= n <= |r.events| == |s.owner|
    decreases n
  {
    if n == i then {}
    else Owners(s, r, key, algorithm, i, n - 1) + if GrantedAt(r, key, algorithm, n - 1) then {s.owner[n - 1]} else {}
  }

  lemma {:induction false} OwnersCounted(s: System, r: Run, key: Key, algorithm: Algorithm, i: nat, n: nat)
    requires i <= n <= |r.events| == |s.owner|
    ensures |Owners(s, r, key, algorithm, i, n)| <= Grants(r, key, algorithm, i, n)
    ensures forall m :: i <= m < n && GrantedAt(r, key, algorithm, m) ==> s.owner[m] in Owners(s, r, key, algorithm, i, n)
    decreases n
  {
    hide WindowRuns.AllowedAt, BucketRuns.TakenAt;
    if n == i {
    } else {
      OwnersCounted(s, r, key, algorithm, i, n - 1);
    }
  }

  lemma LogIsRun(cfg: Config, s: System)
    requires Inv(cfg, s)
    ensures LogRun(cfg, s).Valid() && |s.owner| == |s.log| && Ordered(s.log)
  {
    hide RequestOk, EntryOk;
  }

  lemma FreshStart(cfg: Config, s: System, key: Key)
    requires LogRun(cfg, s).Valid() && ValidName(key.limiter)
    ensures WindowRuns.Fresh(LogRun(cfg, s), key) && BucketRuns.Fresh(LogRun(cfg, s), key)
  {
  }

  lemma AllowedIsOwner(cfg: Config, s: System, id: nat, key: Key, algorithm: Algorithm, i: nat, n: nat)
    requires Inv(cfg, s) && !s.manual && AllowedOn(s, id, key, algorithm) && i <= n <= |s.log|
    requires forall j :: 0 <= j < i ==> s.log[j].now < CountedAt(s, id)
    requires forall j :: n <= j < |s.log| ==> s.log[j].now > CountedAt(s, id)
    ensures |s.owner| == |s.log| && id in Owners(s, LogRun(cfg, s), key, algorithm, i, n)
  {
    AllowsComeFromScripts(cfg, s, id, key, algorithm);
    var m := s.requests[id].phase.source.entry;
    var r := LogRun(cfg, s);
    assert r.Answer(m) == s.replies[m];
    OwnersCounted(s, r, key, algorithm, i, n);
    hide Run.Answer;
    assert GrantedAt(r, key, algorithm, m);
  }

  /** The allowed requests of an interval are no more than the go-aheads of the scripts that ran in it. */
  lemma AllowedAtMostGrants(cfg: Config, s: System, key: Key, algorithm: Algorithm, from: int, to: int) returns (i: nat, n: nat)
    requires Inv(cfg, s) && !s.manual && from <= to
    ensures i <= n <= |s.log|
    ensures forall j :: i <= j < n ==> from <= s.log[j].now < to
    ensures |AllowedIn(s, key, algorithm, from, to)| <= Grants(LogRun(cfg, s), key, algorithm, i, n)
  {
    hide Inv, Run.Valid;
    var r := LogRun(cfg, s);
    LogIsRun(cfg, s);
    i, n := EntriesBefore(s.log, from), EntriesBefore(s.log, to);
    EntriesMonotone(s.log, from, to);
    OwnersCounted(s, r, key, algorithm, i, n);
    forall id | id in AllowedIn(s, key, algorithm, from, to) ensures id in Owners(s, r, key, algorithm, i, n) {
      AllowedIsOwner(cfg, s, id, key, algorithm, i, n);
    }
    SubsetSize(AllowedIn(s, key, algorithm, from, to), Owners(s, r, key, algorithm, i, n));
  }

  /**
   * The distributed bound: any number of replicas, any interleaving, lost requests and replies, open
   * circuits, caches of any size. The requests allowed on one key whose scripts ran in a half-open
   * interval of length span are fewer than limit * (1 + ceil(span / min(window, block))).
   */
  lemma FleetBound(cfg: Config, replicas: nat, schedule: seq<Move>, key: Key, rule: Rule, from: int, span: int)
    requires !After(cfg, replicas, schedule).manual && ValidName(key.limiter) && span > 0
    requires WindowRuns.FixedRule(LogRun(cfg, After(cfg, replicas, schedule)), key, rule)
    ensures |AllowedIn(After(cfg, replicas, schedule), key, FixedWindow, from, from + span)|
            < rule.limit * (1 + CeilDiv(span, WindowRuns.Spacing(rule)))
  {
    hide After, Inv, Run.Valid, AllowedIn;
    InvAlways(cfg, replicas, schedule);
    var s := After(cfg, replicas, schedule);
    var i, n := AllowedAtMostGrants(cfg, s, key, FixedWindow, from, from + span);
    LogIsRun(cfg, s);
    if i < n {
      FreshStart(cfg, s, key);
      WindowRuns.WindowBound(LogRun(cfg, s), key, rule, i, n, span);
    } else {
      MulMonotone(1, 1 + CeilDiv(span, WindowRuns.Spacing(rule)), rule.limit);
    }
  }

  /** The same for a token bucket: no interval admits more than burst plus rate times its length in milliseconds. */
  lemma FleetCapacity(cfg: Config, replicas: nat, schedule: seq<Move>, key: Key, b: Bucket, from: int, span: int)
    requires !After(cfg, replicas, schedule).manual && ValidName(key.limiter) && span > 0
    requires BucketRuns.FixedBucket(LogRun(cfg, After(cfg, replicas, schedule)), key, b)
    ensures 1000 * |AllowedIn(After(cfg, replicas, schedule), key, TokenBucket, from, from + span)|
            <= 1000 * b.burst + b.rate * CeilDiv(span, MILLISECOND)
  {
    hide After, Inv, Run.Valid, AllowedIn;
    InvAlways(cfg, replicas, schedule);
    var s := After(cfg, replicas, schedule);
    var i, n := AllowedAtMostGrants(cfg, s, key, TokenBucket, from, from + span);
    LogIsRun(cfg, s);
    MulMonotone(0, CeilDiv(span, MILLISECOND), b.rate);
    if i < n {
      FreshStart(cfg, s, key);
      BucketRuns.IntervalBound(LogRun(cfg, s), key, b, i, n - 1);
      var first, last := s.log[i].now, s.log[n - 1].now;
      assert last / MILLISECOND - first / MILLISECOND <= CeilDiv(span, MILLISECOND);
      MulMonotone(last / MILLISECOND - first / MILLISECOND, CeilDiv(span, MILLISECOND), b.rate);
    }
  }
}
