/**
 * The circuit breaker of `breaker.go`. `allow` and `record` are separate locked steps with the store
 * call between them, so the machine is studied first under every interleaving of those steps, then
 * in sequential runs of whole calls.
 */
module Breaker {
  import opened Prelude

  /** `openUntil` is None where the source holds the zero time. */
  datatype Circuit = Circuit(failures: int, openUntil: Option<int>, probing: bool) {
    predicate Open() {
      openUntil.Some?
    }
  }

  const CLOSED := Circuit(0, None, false)

  function AllowStep(c: Circuit, threshold: int, now: int): (Circuit, bool) {
    if threshold <= 0 || !c.Open() then (c, true)
    else if c.probing || now < c.openUntil.value then (c, false)
    else (c.(probing := true), true)
  }

  function RecordStep(c: Circuit, threshold: int, cooldown: int, success: bool, now: int): Circuit {
    if threshold <= 0 then c
    else if success then CLOSED
    else Circuit(c.failures + 1, if c.failures + 1 >= threshold then Some(now + cooldown) else c.openUntil, false)
  }

  class CircuitBreaker {
    const threshold: int
    const cooldown: int
    var failures: int
    var openUntil: Option<int>
    var probing: bool

    constructor (threshold: int, cooldown: int)
      ensures this.threshold == threshold && this.cooldown == cooldown && Value() == CLOSED
    {
      this.threshold, this.cooldown := threshold, cooldown;
      failures, openUntil, probing := 0, None, false;
    }

    ghost function Value(): Circuit
      reads this
    {
      Circuit(failures, openUntil, probing)
    }

    method Allow(now: int) returns (ok: bool)
      modifies this
      ensures (Value(), ok) == AllowStep(old(Value()), threshold, now)
    {
      if threshold <= 0 {
        return true;
      }
      if openUntil.None? {
        return true;
      }
      if probing {
        return false;
      }
      if now < openUntil.value {
        return false;
      }
      probing := true;
      return true;
    }

    method Record(success: bool, now: int)
      modifies this
      ensures Value() == RecordStep(old(Value()), threshold, cooldown, success, now)
    {
      if threshold <= 0 {
        return;
      }
      probing := false;
      if success {
        failures := 0;
        openUntil := None;
        return;
      }
      failures := failures + 1;
      if failures >= threshold {
        openUntil := Some(now + cooldown);
      }
    }
  }

  // ---------------------------------------------------------------- every interleaving

  datatype Step = Allow(now: int) | Record(success: bool, now: int)

  /** An interleaving of the steps of any number of concurrent calls. */
  datatype Trace = Trace(threshold: int, cooldown: int, steps: seq<Step>) {
    function At(n: nat): Circuit
      requires n <= |steps|
    {
      if n == 0 then CLOSED
      else
        match steps[n - 1]
        case Allow(now) => AllowStep(At(n - 1), threshold, now).0
        case Record(success, now) => RecordStep(At(n - 1), threshold, cooldown, success, now)
    }

    predicate Admits(n: nat)
      requires n < |steps|
    {
      steps[n].Allow? && AllowStep(At(n), threshold, steps[n].now).1
    }

    /** Admitted calls that have not recorded yet. */
    function InFlight(n: nat): int
      requires n <= |steps|
    {
      if n == 0 then 0
      else InFlight(n - 1) + (if Admits(n - 1) then 1 else 0) - (if steps[n - 1].Record? then 1 else 0)
    }

    /** The breaker is on, and only an admitted call records. */
    predicate Valid() {
      threshold > 0 && forall i :: 0 <= i < |steps| && steps[i].Record? ==> InFlight(i) > 0
    }

    /** The recorded outcomes, in the order they were recorded. */
    function Outcomes(n: nat): seq<bool>
      requires n <= |steps|
    {
      if n == 0 then []
      else if steps[n - 1].Record? then Outcomes(n - 1) + [steps[n - 1].success]
      else Outcomes(n - 1)
    }
  }

  /** The last k outcomes are failures and the one before them, if any, is not. */
  predicate TrailingFailures(outcomes: seq<bool>, k: int) {
    && 0 <= k <= |outcomes|
    && (forall i :: |outcomes| - k <= i < |outcomes| ==> !outcomes[i])
    && (k < |outcomes| ==> outcomes[|outcomes| - k - 1])
  }

  lemma TrailingStep(outcomes: seq<bool>, k: int, success: bool)
    requires TrailingFailures(outcomes, k)
    ensures TrailingFailures(outcomes + [success], if success then 0 else k + 1)
  {
  }

  /**
   * Under every interleaving `failures` is the length of the trailing run of failures in record
   * order, the circuit is open exactly when that reaches the threshold, and a probe is out only while
   * it is open.
   */
  lemma {:induction false} CircuitInvariant(t: Trace, n: nat)
    requires t.Valid() && n <= |t.steps|
    ensures TrailingFailures(t.Outcomes(n), t.At(n).failures)
    ensures t.At(n).Open() <==> t.At(n).failures >= t.threshold
    ensures t.At(n).probing ==> t.At(n).Open()
  {
    if n == 0 {
    } else {
      CircuitInvariant(t, n - 1);
      hide TrailingFailures;
      if t.steps[n - 1].Record? {
        TrailingStep(t.Outcomes(n - 1), t.At(n - 1).failures, t.steps[n - 1].success);
      }
    }
  }

  lemma {:induction false} UnchangedWithoutRecord(t: Trace, i: nat, n: nat)
    requires t.Valid() && i <= n <= |t.steps| && t.At(i).Open() && t.At(i).probing
    requires forall m :: i <= m < n ==> t.steps[m].Allow?
    ensures t.At(n) == t.At(i)
    decreases n
  {
    if i == n {
    } else {
      UnchangedWithoutRecord(t, i, n - 1);
    }
  }

  /** An open circuit admits no call before `openUntil`, and at most one between two records. */
  lemma OneAdmissionPerRecord(t: Trace, i: nat, j: nat)
    requires t.Valid() && i <= j < |t.steps| && t.At(i).Open() && t.Admits(i)
    requires forall m :: i < m <= j ==> t.steps[m].Allow?
    ensures t.steps[i].now >= t.At(i).openUntil.value
    ensures i < j ==> !t.Admits(j)
  {
    if i < j {
      UnchangedWithoutRecord(t, i + 1, j);
    }
  }

  predicate OpenThroughout(t: Trace, p: nat, n: nat)
    requires p <= n <= |t.steps|
  {
    forall m :: p <= m <= n ==> t.At(m).Open()
  }

  /** The calls in flight, not counting the one the circuit takes for its probe. */
  function Others(t: Trace, n: nat): int
    requires n <= |t.steps|
  {
    t.InFlight(n) - if t.At(n).probing then 1 else 0
  }

  /** One step, read off. */
  lemma TraceStep(t: Trace, n: nat)
    requires t.Valid() && n < |t.steps|
    ensures t.steps[n].Allow? ==> t.At(n + 1) == AllowStep(t.At(n), t.threshold, t.steps[n].now).0
    ensures t.steps[n].Record? ==>
              t.At(n + 1) == RecordStep(t.At(n), t.threshold, t.cooldown, t.steps[n].success, t.steps[n].now)
    ensures t.InFlight(n + 1) == t.InFlight(n) + (if t.Admits(n) then 1 else 0) - (if t.steps[n].Record? then 1 else 0)
    ensures t.steps[n].Record? ==> t.InFlight(n) > 0
  {
  }

  lemma {:induction false} ProbeIsInFlight(t: Trace, n: nat)
    requires t.Valid() && n <= |t.steps|
    ensures Others(t, n) >= 0
  {
    if n == 0 {
    } else {
      hide Trace.At, Trace.InFlight, Trace.Valid;
      ProbeIsInFlight(t, n - 1);
      TraceStep(t, n - 1);
    }
  }

  /** While the circuit is open nothing joins them: they only return. */
  lemma {:induction false} OthersOnlyFall(t: Trace, p: nat, n: nat)
    requires t.Valid() && p <= n <= |t.steps| && OpenThroughout(t, p, n)
    ensures 0 <= Others(t, n) <= Others(t, p)
    decreases n
  {
    ProbeIsInFlight(t, n);
    assert t.threshold > 0;
    hide Trace.At, Trace.InFlight, Trace.Valid;
    if p == n {
    } else {
      OthersOnlyFall(t, p, n - 1);
      TraceStep(t, n - 1);
      assert t.At(n - 1).Open();
    }
  }

  /** A probe admitted when nothing else is in flight stays alone until the circuit closes. */
  lemma FirstProbeAlone(t: Trace, p: nat, n: nat)
    requires t.Valid() && p < n <= |t.steps| && OpenThroughout(t, p, n) && t.Admits(p) && t.InFlight(p) == 0
    ensures 0 <= t.InFlight(n) <= 1
  {
    OthersOnlyFall(t, p, n);
  }

  /** Some continuation of the trace, with the circuit open all along, has two calls in flight. */
  ghost predicate TwoInFlight(t: Trace, more: seq<Step>) {
    var u := Trace(t.threshold, t.cooldown, t.steps + more);
    u.Valid() && OpenThroughout(u, |t.steps|, |u.steps|) && u.InFlight(|u.steps|) > 1
  }

  lemma {:induction false} PrefixAgrees(t: Trace, u: Trace, n: nat)
    requires t.threshold == u.threshold && t.cooldown == u.cooldown
    requires n <= |t.steps| <= |u.steps| && u.steps[..|t.steps|] == t.steps
    ensures u.At(n) == t.At(n) && u.InFlight(n) == t.InFlight(n)
  {
    if n == 0 {
    } else {
      assert u.steps[n - 1] == u.steps[..|t.steps|][n - 1];
      PrefixAgrees(t, u, n - 1);
    }
  }

  /**
   * From any open circuit, "one probe at a time" holds of every continuation exactly when no call
   * other than the probe is in flight: one straggler is enough for two at once.
   */
  lemma SingleProbeExactly(t: Trace)
    requires t.Valid() && t.At(|t.steps|).Open()
    ensures (exists more :: TwoInFlight(t, more)) <==> Others(t, |t.steps|) > 0
  {
    var n := |t.steps|;
    if Others(t, n) > 0 {
      ProbeBesideStraggler(t);
    }
    forall more | TwoInFlight(t, more) ensures Others(t, n) > 0 {
      var u := Trace(t.threshold, t.cooldown, t.steps + more);
      hide Trace.At, Trace.InFlight, Trace.Valid;
      PrefixAgrees(t, u, n);
      OthersOnlyFall(u, n, |u.steps|);
    }
  }

  /** A probe is already out beside the straggler. */
  lemma ProbeIsOut(t: Trace)
    requires t.Valid() && t.At(|t.steps|).Open() && t.At(|t.steps|).probing && Others(t, |t.steps|) > 0
    ensures TwoInFlight(t, [])
  {
    assert t.steps + [] == t.steps;
    hide Trace.At, Trace.InFlight, Trace.Valid;
  }

  /** Or one goes out as soon as the cooldown is over. */
  lemma ProbeGoesOut(t: Trace)
    requires t.Valid() && t.At(|t.steps|).Open() && !t.At(|t.steps|).probing && Others(t, |t.steps|) > 0
    ensures TwoInFlight(t, [Allow(t.At(|t.steps|).openUntil.value)])
  {
    assert t.threshold > 0;
    hide Trace.At, Trace.InFlight, Trace.Valid;
    var n, until := |t.steps|, t.At(|t.steps|).openUntil.value;
    ExtendedByAllow(t, until);
    TraceStep(Trace(t.threshold, t.cooldown, t.steps + [Allow(until)]), n);
  }

  lemma ProbeBesideStraggler(t: Trace)
    requires t.Valid() && t.At(|t.steps|).Open() && Others(t, |t.steps|) > 0
    ensures exists more :: TwoInFlight(t, more)
  {
    hide *;
    if t.At(|t.steps|).probing {
      ProbeIsOut(t);
    } else {
      ProbeGoesOut(t);
    }
  }

  /**
   * Stragglers do happen, under every threshold and cooldown: let one call more than the threshold be
   * admitted, and all but one of them fail.
   */
  function Stampede(threshold: nat, cooldown: int): Trace {
    Trace(threshold, cooldown, seq(2 * threshold + 1, i => if i <= threshold then Allow(0) else Record(false, 0)))
  }

  lemma {:induction false} StampedeAt(threshold: nat, cooldown: int, i: nat)
    requires 0 < threshold && i <= 2 * threshold + 1
    ensures
      var t, failed := Stampede(threshold, cooldown), i - threshold - 1;
      if i <= threshold + 1 then t.At(i) == CLOSED && t.InFlight(i) == i
      else
        t.At(i) == Circuit(failed, if failed == threshold then Some(cooldown) else None, false) &&
        t.InFlight(i) == threshold + 1 - failed
  {
    if i == 0 {
    } else {
      StampedeAt(threshold, cooldown, i - 1);
    }
  }

  lemma StragglerReachable(threshold: nat, cooldown: int)
    requires threshold > 0
    ensures
      var t := Stampede(threshold, cooldown);
      t.Valid() && t.At(|t.steps|).Open() && Others(t, |t.steps|) > 0 && exists more :: TwoInFlight(t, more)
  {
    var t := Stampede(threshold, cooldown);
    assert t.Valid() by {
      hide Trace.InFlight;
      forall i | 0 <= i < |t.steps| && t.steps[i].Record? ensures t.InFlight(i) > 0 {
        StampedeAt(threshold, cooldown, i);
      }
    }
    StampedeAt(threshold, cooldown, |t.steps|);
    hide Trace.At, Trace.InFlight, Trace.Valid;
    ProbeBesideStraggler(t);
  }

  /** Asking once more is always a possible next step. */
  lemma ExtendedByAllow(t: Trace, now: int)
    requires t.Valid()
    ensures
      var u := Trace(t.threshold, t.cooldown, t.steps + [Allow(now)]);
      u.Valid() && u.At(|t.steps|) == t.At(|t.steps|) && u.InFlight(|t.steps|) == t.InFlight(|t.steps|)
  {
    var u := Trace(t.threshold, t.cooldown, t.steps + [Allow(now)]);
    hide Trace.At, Trace.InFlight;
    PrefixAgrees(t, u, |t.steps|);
    forall i | 0 <= i < |u.steps| && u.steps[i].Record? ensures u.InFlight(i) > 0 {
      assert t.steps[i].Record?;
      PrefixAgrees(t, u, i);
    }
  }

  // ---------------------------------------------------------------- sequential runs

  /** One whole call: asked at `start`; if admitted, answered and recorded at `end`. */
  datatype Visit = Visit(start: int, end: int, ok: bool)

  datatype Sequential = Sequential(threshold: int, cooldown: int, initial: Circuit, visits: seq<Visit>) {
    function At(n: nat): Circuit
      requires n <= |visits|
    {
      if n == 0 then initial
      else
        var v, (c, admitted) := visits[n - 1], AllowStep(At(n - 1), threshold, visits[n - 1].start);
        if admitted then RecordStep(c, threshold, cooldown, v.ok, v.end) else c
    }

    predicate Admits(n: nat)
      requires n < |visits|
    {
      AllowStep(At(n), threshold, visits[n].start).1
    }

    /** How many of the first n calls reached the store. */
    function Reached(n: nat): nat
      requires n <= |visits|
    {
      if n == 0 then 0 else Reached(n - 1) + if Admits(n - 1) then 1 else 0
    }

    /** One call after the other on a monotone clock, from any circuit with no probe out. */
    predicate Valid() {
      && threshold > 0 && cooldown > 0
      && !initial.probing && initial.failures >= 0
      && (initial.Open() <==> initial.failures >= threshold)
      && (forall i :: 0 <= i < |visits| ==> visits[i].start <= visits[i].end)
      && (forall i, j :: 0 <= i < j < |visits| ==> visits[i].end <= visits[j].start)
    }
  }

  /** One whole call, read off. */
  lemma VisitStep(s: Sequential, n: nat)
    requires s.Valid() && n < |s.visits|
    ensures
      var v, (c, admitted) := s.visits[n], AllowStep(s.At(n), s.threshold, s.visits[n].start);
      && admitted == s.Admits(n)
      && s.At(n + 1) == (if admitted then RecordStep(c, s.threshold, s.cooldown, v.ok, v.end) else c)
      && s.Reached(n + 1) == s.Reached(n) + (if admitted then 1 else 0)
      && s.visits[0].start <= v.start <= v.end
  {
    assert n > 0 ==> s.visits[0].end <= s.visits[n].start;
  }

  lemma {:induction false} NoProbeBetweenCalls(s: Sequential, n: nat)
    requires s.Valid() && n <= |s.visits|
    ensures !s.At(n).probing && s.At(n).failures >= 0
    ensures s.At(n).Open() <==> s.At(n).failures >= s.threshold
  {
    if n == 0 {
    } else {
      NoProbeBetweenCalls(s, n - 1);
    }
  }

  lemma {:induction false} OutageInvariant(s: Sequential, n: nat)
    requires s.Valid() && n <= |s.visits|
    requires forall i :: 0 <= i < n ==> !s.visits[i].ok
    ensures s.At(n).failures >= s.Reached(n)
    ensures n > 0 && s.Reached(n) >= s.threshold ==>
              s.At(n).Open() && s.At(n).openUntil.value >= s.visits[0].start + (s.Reached(n) - s.threshold + 1) * s.cooldown
  {
    assert s.Reached(0) == 0 && s.At(0) == s.initial;
    hide Sequential.At, Sequential.Reached, Sequential.Admits;
    if n == 0 {
    } else {
      OutageInvariant(s, n - 1);
      NoProbeBetweenCalls(s, n - 1);
      VisitStep(s, n - 1);
      var more := s.Reached(n - 1) - s.threshold;
      assert (more + 2) * s.cooldown == (more + 1) * s.cooldown + s.cooldown;
    }
  }

  /** Each call beyond the threshold cost a cooldown. */
  lemma {:induction false} OutageSpacing(s: Sequential, n: nat)
    requires s.Valid() && 0 < n <= |s.visits|
    requires forall i :: 0 <= i < n ==> !s.visits[i].ok
    ensures s.Reached(n) > s.threshold ==>
              (s.Reached(n) - s.threshold) * s.cooldown <= s.visits[n - 1].start - s.visits[0].start
  {
    assert s.Reached(0) == 0;
    VisitStep(s, n - 1);
    OutageInvariant(s, n - 1);
    if n == 1 {
    } else {
      OutageSpacing(s, n - 1);
      assert s.visits[n - 2].start <= s.visits[n - 2].end <= s.visits[n - 1].start;
    }
    hide Sequential.At, Sequential.Reached, Sequential.Admits;
    if s.Admits(n - 1) && s.Reached(n - 1) >= s.threshold {
      assert s.visits[n - 1].start >= s.At(n - 1).openUntil.value;
    }
  }

  /** A continuously failing store is called at most threshold + floor(elapsed / cooldown) times. */
  lemma OutageCost(s: Sequential, n: nat)
    requires s.Valid() && 0 < n <= |s.visits|
    requires forall i :: 0 <= i < n ==> !s.visits[i].ok
    ensures s.Reached(n) <= s.threshold + (s.visits[n - 1].start - s.visits[0].start) / s.cooldown
  {
    hide Sequential.At, Sequential.Reached, Sequential.Admits;
    OutageSpacing(s, n);
    VisitStep(s, n - 1);
    var elapsed, beyond := s.visits[n - 1].start - s.visits[0].start, s.Reached(n) - s.threshold;
    if beyond > elapsed / s.cooldown {
      MulMonotone(elapsed / s.cooldown + 1, beyond, s.cooldown);
      DivMonotone(0, elapsed, s.cooldown);
      assert false;
    }
  }

  /** From `u` on the store answers: nothing recorded at or after `u` is a failure. */
  predicate HealthyFrom(s: Sequential, u: int) {
    && (s.initial.Open() ==> s.initial.openUntil.value <= u + s.cooldown)
    && forall i :: 0 <= i < |s.visits| && s.visits[i].end >= u ==> s.visits[i].ok
  }

  lemma {:induction false} OpenUntilBounded(s: Sequential, u: int, n: nat)
    requires s.Valid() && HealthyFrom(s, u) && n <= |s.visits|
    ensures s.At(n).Open() ==> s.At(n).openUntil.value <= u + s.cooldown
  {
    if n == 0 {
    } else {
      OpenUntilBounded(s, u, n - 1);
      NoProbeBetweenCalls(s, n - 1);
    }
  }

  /** One cooldown after the store recovers, every call reaches it again and the circuit is closed behind it. */
  lemma Recovery(s: Sequential, u: int, n: nat)
    requires s.Valid() && HealthyFrom(s, u) && n < |s.visits|
    requires s.visits[n].start >= u + s.cooldown
    ensures s.Admits(n) && s.At(n + 1) == CLOSED
  {
    OpenUntilBounded(s, u, n);
    NoProbeBetweenCalls(s, n);
  }
}
