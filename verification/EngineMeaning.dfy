/**
 * What a decision says about the answers the store gave: every verdict, and every field a response or
 * a dry-run report is built from, read off those answers alone.
 */
module EngineMeaning {
  import opened Prelude
  import opened Store
  import opened StoreRuns
  import opened Stack
  import opened Engine
  import Paths

  // ---------------------------------------------------------------- who is asked

  /** The limiter is scoped to the request: some path pattern covers it and some method is its method. */
  predicate InScope(l: Limiter, req: Request) {
    && (l.paths == [] || exists i :: 0 <= i < |l.paths| && Paths.Covers(l.paths[i], req.path))
    && (l.methods == [] || exists i :: 0 <= i < |l.methods| && Paths.SameButCase(l.methods[i], req.verb))
  }

  /** A limiter has a say exactly when it is in scope, has an algorithm and its keyer yields a bucket. */
  lemma ConsultedMeaning(l: Limiter, req: Request, b: string)
    requires Paths.HasPrefix(req.path, "/")
    ensures l.Consulted(req) == Some(b) <==> InScope(l, req) && (l.rule.Valid() || l.bucket.Valid()) && l.keyer(req) == Keyed(b)
  {
    Paths.ScopeMeaning(l.paths, req.path);
    Paths.MethodMeaning(l.methods, req.verb);
    hide Paths.Covers, Paths.SameButCase, Paths.PathInScope, Paths.MethodInScope;
  }

  /** The turns of the limiters in scope. */
  function Scoped(req: Request, turns: seq<Turn>): seq<Turn> {
    if turns == [] then [] else Scoped(req, Init(turns)) + if InScope(Last(turns).limiter, req) then [Last(turns)] else []
  }

  /** A limiter out of scope might as well not be there: no call, no evaluation, no effect. */
  lemma {:induction false} OutOfScopeIsAbsent(cfg: Config, req: Request, turns: seq<Turn>, s: Layers)
    requires Paths.HasPrefix(req.path, "/")
    ensures Walk(cfg, req, turns, s) == Walk(cfg, req, Scoped(req, turns), s)
  {
    if turns == [] {
    } else {
      hide Walk, Ask, Judge, VerdictOf, Limiter.Consulted, InScope, Paths.HasPrefix;
      var t, kept := Last(turns), Scoped(req, turns);
      OutOfScopeIsAbsent(cfg, req, Init(turns), s);
      WalkStep(cfg, req, turns, s);
      if InScope(t.limiter, req) {
        assert Init(kept) == Scoped(req, Init(turns)) && Last(kept) == t;
        WalkStep(cfg, req, kept, s);
      } else {
        OutOfScopeIsSilent(t.limiter, req);
        assert kept == Scoped(req, Init(turns));
      }
    }
  }

  lemma OutOfScopeIsSilent(l: Limiter, req: Request)
    requires Paths.HasPrefix(req.path, "/") && !InScope(l, req)
    ensures l.Consulted(req).None?
  {
    hide InScope, Paths.HasPrefix, Limiter.Consulted;
    if l.Consulted(req).Some? {
      ConsultedMeaning(l, req, l.Consulted(req).value);
    }
  }

  /** The limiters with a token bucket, relieved of their window. */
  function BucketOnly(turns: seq<Turn>): seq<Turn> {
    if turns == [] then []
    else
      var t := Last(turns);
      BucketOnly(Init(turns)) + [if t.limiter.bucket.Valid() then t.(limiter := t.limiter.(rule := Rule(0, 0, 0))) else t]
  }

  /** A limiter with both algorithms is a token bucket and nothing else. */
  lemma {:induction false} BucketTakesPrecedence(cfg: Config, req: Request, turns: seq<Turn>, s: Layers)
    ensures Walk(cfg, req, BucketOnly(turns), s) == Walk(cfg, req, turns, s)
  {
    if turns == [] {
    } else {
      hide Walk, StackStep;
      var kept := BucketOnly(turns);
      BucketTakesPrecedence(cfg, req, Init(turns), s);
      assert Init(kept) == BucketOnly(Init(turns));
      WalkStep(cfg, req, turns, s);
      WalkStep(cfg, req, kept, s);
      hide Paths.PathInScope, Paths.MethodInScope;
    }
  }

  // ---------------------------------------------------------------- what they were told

  /** The answer the stack gives limiter i in a complete evaluation; None when it has no say. */
  function Heard(cfg: Config, req: Request, turns: seq<Turn>, s: Layers, i: nat): Option<Answer>
    requires i < |turns|
  {
    var t, b := turns[i], turns[i].limiter.Consulted(req);
    if b.None? then None
    else Some(StackStep(cfg, Free(cfg, req, turns[..i], s), Event(t.tick.now, t.limiter.CallFor(b.value)), t.tick.fault).1)
  }

  /** Limiter i was refused, and is dry-run or not. */
  predicate RefusedAt(cfg: Config, req: Request, turns: seq<Turn>, s: Layers, i: nat, dry: bool)
    requires i < |turns|
  {
    var a := Heard(cfg, req, turns, s, i);
    a.Some? && Refused(a.value) && turns[i].limiter.dryRun == dry
  }

  lemma HeardInit(cfg: Config, req: Request, turns: seq<Turn>, s: Layers, n: nat, i: nat)
    requires i < n <= |turns|
    ensures Heard(cfg, req, turns[..n], s, i) == Heard(cfg, req, turns, s, i)
  {
    assert turns[..n][..i] == turns[..i];
  }

  lemma ToldIsHeard(cfg: Config, req: Request, turns: seq<Turn>, s: Layers, i: nat)
    requires i < |turns|
    ensures
      var a, o := Heard(cfg, req, turns, s, i), Told(cfg, req, turns, s, i);
      && (a.Some? <==> o.Some?)
      && (a.Some? ==> o.value == ReadAnswer(a.value))
    ensures Enforces(cfg, req, turns, s, i) <==> RefusedAt(cfg, req, turns, s, i, false)
  {
    hide StackStep, Free, Limiter.Consulted;
  }

  // ---------------------------------------------------------------- verdicts

  /** What a verdict says about the answer. */
  predicate Means(v: Verdict, dryRun: bool, a: Answer) {
    match v
    case VerdictFailedOpen => !Succeeded(a)
    case VerdictAllowed => Succeeded(a) && !Refused(a)
    case VerdictWouldBlock => Refused(a) && dryRun
    case VerdictBlocked => Refused(a) && !dryRun
  }

  /** No two verdicts mean the same, and one of them always applies. */
  lemma OneVerdictEach(dryRun: bool, a: Answer)
    ensures exists v :: Means(v, dryRun, a) && forall u :: Means(u, dryRun, a) ==> u == v
  {
    var v := if !Succeeded(a) then VerdictFailedOpen else if !Refused(a) then VerdictAllowed
             else if dryRun then VerdictWouldBlock else VerdictBlocked;
    assert Means(v, dryRun, a);
  }

  /** The limiters that have a say, by index. */
  function Asked(req: Request, turns: seq<Turn>): (ps: seq<nat>)
    ensures forall k :: 0 <= k < |ps| ==> ps[k] < |turns| && turns[ps[k]].limiter.Consulted(req).Some?
    ensures forall k, l :: 0 <= k < l < |ps| ==> ps[k] < ps[l]
    ensures forall i :: 0 <= i < |turns| && turns[i].limiter.Consulted(req).Some? ==> i in ps
  {
    if turns == [] then []
    else
      var before, n := Asked(req, Init(turns)), |turns| - 1;
      if Last(turns).limiter.Consulted(req).None? then before
      else
        assert forall i :: 0 <= i < |turns| && turns[i].limiter.Consulted(req).Some? ==> i in before + [n] by {
          hide Limiter.Consulted;
          forall i | 0 <= i < |turns| && turns[i].limiter.Consulted(req).Some? ensures i in before + [n] {
            if i < n {
              assert Init(turns)[i] == turns[i];
              assert i in before;
            } else {
              assert (before + [n])[|before|] == i;
            }
          }
        }
        before + [n]
  }

  /** One evaluation per limiter asked, in order, each saying what its answer was. */
  ghost predicate Reported(cfg: Config, req: Request, turns: seq<Turn>, s: Layers, evals: seq<Evaluation>, ps: seq<nat>) {
    && |evals| == |ps|
    && forall k :: 0 <= k < |ps| ==>
                     && ps[k] < |turns| && Heard(cfg, req, turns, s, ps[k]).Some?
                     && evals[k].limiter == turns[ps[k]].limiter.name
                     && Means(evals[k].verdict, turns[ps[k]].limiter.dryRun, Heard(cfg, req, turns, s, ps[k]).value)
  }

  lemma VerdictMeans(l: Limiter, a: Answer)
    ensures Means(VerdictOf(l, ReadAnswer(a)), l.dryRun, a)
  {
  }

  lemma {:induction false} VerdictsReported(cfg: Config, req: Request, turns: seq<Turn>, s: Layers)
    ensures Reported(cfg, req, turns, s, Verdicts(cfg, req, turns, s), Asked(req, turns))
  {
    if turns == [] {
    } else {
      hide Told, Heard, VerdictOf, Means, ReadAnswer;
      var n, init := |turns| - 1, Init(turns);
      VerdictsReported(cfg, req, init, s);
      forall i | 0 <= i < n ensures Heard(cfg, req, init, s, i) == Heard(cfg, req, turns, s, i) {
        HeardInit(cfg, req, turns, s, n, i);
      }
      ToldIsHeard(cfg, req, turns, s, n);
      HeardIfAsked(cfg, req, turns, s, n);
      hide Limiter.Consulted;
      if Heard(cfg, req, turns, s, n).Some? {
        VerdictMeans(Last(turns).limiter, Heard(cfg, req, turns, s, n).value);
      }
    }
  }

  lemma HeardIfAsked(cfg: Config, req: Request, turns: seq<Turn>, s: Layers, i: nat)
    requires i < |turns|
    ensures Heard(cfg, req, turns, s, i).Some? <==> turns[i].limiter.Consulted(req).Some?
  {
    hide StackStep, Free, Limiter.Consulted;
  }

  /** How far the walk goes: up to and including the first limiter that is refused and enforces. */
  ghost predicate GoesUpTo(cfg: Config, req: Request, turns: seq<Turn>, s: Layers, n: nat) {
    && n <= |turns|
    && (forall i :: 0 <= i < n - 1 ==> !RefusedAt(cfg, req, turns, s, i, false))
    && (n < |turns| ==> n > 0 && RefusedAt(cfg, req, turns, s, n - 1, false))
  }

  /**
   * The evaluations of a request, whatever faults, open circuits and cache contents: one for each
   * limiter that has a say, up to the first enforced refusal, and each verdict says exactly what the
   * stack answered: failed open iff the call failed, allowed iff it succeeded and was not refused,
   * would block and blocked iff it was refused, by a dry-run limiter and by an enforcing one.
   */
  lemma EvaluationsMean(cfg: Config, req: Request, turns: seq<Turn>, s: Layers) returns (n: nat)
    ensures GoesUpTo(cfg, req, turns, s, n)
    ensures Reported(cfg, req, turns, s, Walk(cfg, req, turns, s).decision.evaluations, Asked(req, turns[..n]))
  {
    hide Walk, Free, Verdicts, Told, Enforces, Names, Heard, Asked, Means;
    WalkIsTruncation(cfg, req, turns, s);
    var f := First(cfg, req, turns, s);
    n := if f.Some? then f.value + 1 else |turns|;
    assert turns[..|turns|] == turns;
    VerdictsReported(cfg, req, turns[..n], s);
    forall i | 0 <= i < |turns| ensures Enforces(cfg, req, turns, s, i) <==> RefusedAt(cfg, req, turns, s, i, false) {
      ToldIsHeard(cfg, req, turns, s, i);
    }
    hide RefusedAt;
    forall i | 0 <= i < n ensures Heard(cfg, req, turns[..n], s, i) == Heard(cfg, req, turns, s, i) {
      HeardInit(cfg, req, turns, s, n, i);
    }
  }

  /** `Decision.FailedOpen`: a search through the evaluations. */
  method FailedOpen(d: Decision) returns (found: bool)
    ensures found <==> exists i :: 0 <= i < |d.evaluations| && d.evaluations[i].verdict.VerdictFailedOpen?
  {
    for i := 0 to |d.evaluations|
      invariant forall j :: 0 <= j < i ==> !d.evaluations[j].verdict.VerdictFailedOpen?
    {
      if d.evaluations[i].verdict.VerdictFailedOpen? {
        return true;
      }
    }
    return false;
  }

  /** A request failed open exactly when some limiter it was asked of got an error for an answer. */
  lemma FailedOpenMeans(cfg: Config, req: Request, turns: seq<Turn>, s: Layers) returns (n: nat)
    ensures GoesUpTo(cfg, req, turns, s, n)
    ensures
      var evals := Walk(cfg, req, turns, s).decision.evaluations;
      (exists k :: 0 <= k < |evals| && evals[k].verdict.VerdictFailedOpen?) <==>
      exists i :: 0 <= i < n && Heard(cfg, req, turns, s, i).Some? && !Succeeded(Heard(cfg, req, turns, s, i).value)
  {
    hide Walk, Heard, GoesUpTo, Limiter.Consulted, Succeeded;
    n := EvaluationsMean(cfg, req, turns, s);
    GoesNoFurther(cfg, req, turns, s, n);
    var evals, ps := Walk(cfg, req, turns, s).decision.evaluations, Asked(req, turns[..n]);
    if i :| 0 <= i < n && Heard(cfg, req, turns, s, i).Some? && !Succeeded(Heard(cfg, req, turns, s, i).value) {
      HeardIfAsked(cfg, req, turns, s, i);
      assert turns[..n][i] == turns[i];
      var k :| 0 <= k < |ps| && ps[k] == i;
      FailedMeans(evals[k].verdict, turns[i].limiter.dryRun, Heard(cfg, req, turns, s, i).value);
    }
    if k :| 0 <= k < |evals| && evals[k].verdict.VerdictFailedOpen? {
      assert ps[k] < n;
      FailedMeans(evals[k].verdict, turns[ps[k]].limiter.dryRun, Heard(cfg, req, turns, s, ps[k]).value);
    }
  }

  lemma GoesNoFurther(cfg: Config, req: Request, turns: seq<Turn>, s: Layers, n: nat)
    requires GoesUpTo(cfg, req, turns, s, n)
    ensures n <= |turns|
  {
  }

  lemma FailedMeans(v: Verdict, dryRun: bool, a: Answer)
    requires Means(v, dryRun, a)
    ensures v.VerdictFailedOpen? <==> !Succeeded(a)
  {
  }

  // ---------------------------------------------------------------- decisions

  /** The decision reports this answer: a count and a wait, or the tokens left and the wait for one. */
  predicate Reports(d: Decision, a: Answer) {
    match a
    case Consumed(Ok(r)) => d.count == r.count && d.retryAfter == r.retryAfter
    case Taken(Ok(r)) => d.count == r.remaining && d.retryAfter == r.retryAfter
    case _ => false
  }

  lemma RefusedInit(cfg: Config, req: Request, turns: seq<Turn>, s: Layers, dry: bool)
    requires turns != []
    ensures forall i :: 0 <= i < |turns| - 1 ==>
                          RefusedAt(cfg, req, Init(turns), s, i, dry) == RefusedAt(cfg, req, turns, s, i, dry)
  {
    hide Heard;
    forall i | 0 <= i < |turns| - 1 ensures RefusedAt(cfg, req, Init(turns), s, i, dry) == RefusedAt(cfg, req, turns, s, i, dry) {
      HeardInit(cfg, req, turns, s, |turns| - 1, i);
    }
  }

  /** The first limiter that is refused, among the dry-run ones or among the others. */
  function FirstRefused(cfg: Config, req: Request, turns: seq<Turn>, s: Layers, dry: bool): (f: Option<nat>)
    ensures f.None? ==> forall j :: 0 <= j < |turns| ==> !RefusedAt(cfg, req, turns, s, j, dry)
    ensures f.Some? ==> f.value < |turns| && RefusedAt(cfg, req, turns, s, f.value, dry)
    ensures f.Some? ==> forall j :: 0 <= j < f.value ==> !RefusedAt(cfg, req, turns, s, j, dry)
  {
    if turns == [] then None
    else
      var f, n := FirstRefused(cfg, req, Init(turns), s, dry), |turns| - 1;
      RefusedInit(cfg, req, turns, s, dry);
      assert forall i :: 0 <= i < n ==> RefusedAt(cfg, req, Init(turns), s, i, dry) == RefusedAt(cfg, req, turns, s, i, dry);
      if f.Some? then f else if RefusedAt(cfg, req, turns, s, n, dry) then Some(n) else None
  }

  /** Who decides a request and what it says: the first enforced refusal, else the first dry-run one, else nobody. */
  ghost predicate Decides(cfg: Config, req: Request, turns: seq<Turn>, s: Layers, d: Decision) {
    var enforced, projected := FirstRefused(cfg, req, turns, s, false), FirstRefused(cfg, req, turns, s, true);
    if enforced.Some? then
      && d.blocked && !d.dryRun && d.limiter == turns[enforced.value].limiter.name
      && d.adviseRetryAfter == turns[enforced.value].limiter.adviseRetryAfter
      && Reports(d, Heard(cfg, req, turns, s, enforced.value).value)
    else if projected.Some? then
      && d.blocked && d.dryRun && d.limiter == turns[projected.value].limiter.name && !d.adviseRetryAfter
      && Reports(d, Heard(cfg, req, turns, s, projected.value).value)
    else d.(evaluations := []) == UNDECIDED
  }

  lemma JudgeDecides(d: Decision, l: Limiter, a: Answer)
    ensures
      var d' := Judge(d, l, ReadAnswer(a));
      && (Refused(a) && !l.dryRun ==>
            d'.blocked && !d'.dryRun && d'.limiter == l.name && d'.adviseRetryAfter == l.adviseRetryAfter && Reports(d', a))
      && (!Refused(a) || (l.dryRun && d.blocked) ==> d'.(evaluations := []) == d.(evaluations := []))
      && (Refused(a) && l.dryRun && !d.blocked ==>
            d'.blocked && d'.dryRun && d'.limiter == l.name && d'.adviseRetryAfter == d.adviseRetryAfter && Reports(d', a))
      && (VerdictOf(l, ReadAnswer(a)).VerdictBlocked? <==> Refused(a) && !l.dryRun)
  {
  }

  lemma FreeStep(cfg: Config, req: Request, turns: seq<Turn>, s: Layers)
    requires turns != []
    ensures
      var s', b := Free(cfg, req, Init(turns), s), Last(turns).limiter.Consulted(req);
      Free(cfg, req, turns, s) == if b.None? then s' else Ask(cfg, s', Last(turns), b.value).0
  {
    hide Ask, Limiter.Consulted;
  }

  /** The last limiter's answer, given that the walk got there. */
  lemma LastHeard(cfg: Config, req: Request, turns: seq<Turn>, s: Layers)
    requires turns != [] && !Walk(cfg, req, Init(turns), s).stopped
    requires Walk(cfg, req, Init(turns), s).layers == Free(cfg, req, Init(turns), s)
    ensures
      var w, w', a := Walk(cfg, req, Init(turns), s), Walk(cfg, req, turns, s), Heard(cfg, req, turns, s, |turns| - 1);
      && w'.layers == Free(cfg, req, turns, s)
      && (a.None? ==> w' == w)
      && (a.Some? ==>
            && w'.decision == Judge(w.decision, Last(turns).limiter, ReadAnswer(a.value))
            && w'.stopped == VerdictOf(Last(turns).limiter, ReadAnswer(a.value)).VerdictBlocked?)
  {
    WalkStep(cfg, req, turns, s);
    FreeStep(cfg, req, turns, s);
    assert turns[..|turns| - 1] == Init(turns);
    hide Walk, Free, StackStep, Limiter.Consulted, Judge, VerdictOf, ReadAnswer;
  }

  lemma FirstRefusedStep(cfg: Config, req: Request, turns: seq<Turn>, s: Layers, dry: bool)
    requires turns != []
    ensures
      var f, n := FirstRefused(cfg, req, Init(turns), s, dry), |turns| - 1;
      && FirstRefused(cfg, req, turns, s, dry) == (if f.Some? then f else if RefusedAt(cfg, req, turns, s, n, dry) then Some(n) else None)
      && (f.Some? ==> f.value < n && Heard(cfg, req, turns, s, f.value) == Heard(cfg, req, Init(turns), s, f.value))
  {
    hide RefusedAt, Heard;
    var f := FirstRefused(cfg, req, Init(turns), s, dry);
    if f.Some? {
      HeardInit(cfg, req, turns, s, |turns| - 1, f.value);
    }
  }

  lemma DecidesStep(cfg: Config, req: Request, turns: seq<Turn>, s: Layers, d: Decision, d': Decision)
    requires turns != [] && Decides(cfg, req, Init(turns), s, d) && FirstRefused(cfg, req, Init(turns), s, false).None?
    requires
      var a, l := Heard(cfg, req, turns, s, |turns| - 1), Last(turns).limiter;
      if a.None? then d' == d else d' == Judge(d, l, ReadAnswer(a.value))
    ensures Decides(cfg, req, turns, s, d')
  {
    hide Heard, Judge, ReadAnswer, FirstRefused, Reports;
    FirstRefusedStep(cfg, req, turns, s, false);
    FirstRefusedStep(cfg, req, turns, s, true);
    var a := Heard(cfg, req, turns, s, |turns| - 1);
    if a.Some? {
      JudgeDecides(d, Last(turns).limiter, a.value);
      hide Refused, VerdictOf;
      if d'.(evaluations := []) == d.(evaluations := []) {
        SameReports(d, d');
      }
    }
  }

  lemma SameReports(d: Decision, d': Decision)
    requires d'.(evaluations := []) == d.(evaluations := [])
    ensures forall a :: Reports(d', a) == Reports(d, a)
  {
  }

  lemma DecidesStopped(cfg: Config, req: Request, turns: seq<Turn>, s: Layers, d: Decision)
    requires turns != [] && Decides(cfg, req, Init(turns), s, d) && FirstRefused(cfg, req, Init(turns), s, false).Some?
    ensures Decides(cfg, req, turns, s, d) && FirstRefused(cfg, req, turns, s, false).Some?
  {
    hide Heard, FirstRefused, Reports;
    FirstRefusedStep(cfg, req, turns, s, false);
  }

  /**
   * The meaning of a decision, whatever faults, open circuits and cache contents: it is rejected if
   * and only if some enforcing limiter was refused, and reports the first of them, with the count and
   * wait of its answer and its own advice; otherwise it reports the first dry-run limiter that was
   * refused, and if there is none it is undecided.
   */
  lemma {:induction false} DecisionMeans(cfg: Config, req: Request, turns: seq<Turn>, s: Layers)
    ensures
      var w := Walk(cfg, req, turns, s);
      && Decides(cfg, req, turns, s, w.decision)
      && (w.stopped <==> FirstRefused(cfg, req, turns, s, false).Some?)
      && (w.decision.Rejected() <==> FirstRefused(cfg, req, turns, s, false).Some?)
      && (!w.stopped ==> w.layers == Free(cfg, req, turns, s))
  {
    if turns == [] {
    } else {
      DecisionMeans(cfg, req, Init(turns), s);
      WalkStep(cfg, req, turns, s);
      var w := Walk(cfg, req, Init(turns), s);
      hide Walk, Decides, FirstRefused, Heard, Judge, VerdictOf, Free, Ask, Limiter.Consulted;
      if w.stopped {
        DecidesStopped(cfg, req, turns, s, w.decision);
      } else {
        LastHeard(cfg, req, turns, s);
        DecidesStep(cfg, req, turns, s, w.decision, Walk(cfg, req, turns, s).decision);
        FirstRefusedStep(cfg, req, turns, s, false);
        var a := Heard(cfg, req, turns, s, |turns| - 1);
        if a.Some? {
          JudgeDecides(w.decision, Last(turns).limiter, a.value);
        }
      }
      RejectedIsEnforced(cfg, req, turns, s, Walk(cfg, req, turns, s).decision);
    }
  }

  lemma RejectedIsEnforced(cfg: Config, req: Request, turns: seq<Turn>, s: Layers, d: Decision)
    requires Decides(cfg, req, turns, s, d)
    ensures d.Rejected() <==> FirstRefused(cfg, req, turns, s, false).Some?
  {
    hide FirstRefused, Heard, Reports;
  }
}
