/** The limiter file: `Validate` of `file.go`, and `Build` of `build.go` as a compiler that cannot fail on what it accepts. */
module Config {
  import opened Prelude
  import opened Store
  import Paths
  import Engine
  import Normaliser
  import StorageKeys

  const MIN_LIMIT := 1
  const MAX_LIMIT := 10_000
  const MIN_WINDOW := SECOND
  const MAX_WINDOW := 3600 * SECOND
  const MIN_BLOCK := SECOND
  const MAX_BLOCK := 24 * 3600 * SECOND
  const MIN_RATE := 1
  const MAX_RATE := 1_000_000
  const MIN_BURST := 1
  const MAX_BURST := 1_000_000

  datatype KeySpec = KeySpec(body: string, header: seq<string>, query: seq<string>, first: seq<KeySpec>,
                             composite: seq<KeySpec>, separator: string, normalise: string, hash: bool)
  {
    /** How many key sources are set. */
    function Sources(): nat {
      (if body != "" then 1 else 0) + (if |header| > 0 then 1 else 0) + (if |query| > 0 then 1 else 0)
      + (if |first| > 0 then 1 else 0) + (if |composite| > 0 then 1 else 0)
    }
  }

  datatype WindowSpec = WindowSpec(limit: int, window: int, block: int)

  datatype BucketSpec = BucketSpec(rate: int, burst: int)

  datatype LimiterSpec = LimiterSpec(name: string, key: Option<KeySpec>, window: Option<WindowSpec>, bucket: Option<BucketSpec>,
                                     paths: seq<string>, methods: seq<string>, dryRun: bool, retryAfter: bool,
                                     response: Option<ResponseSpec>)

  datatype ResponseSpec = ResponseSpec(status: int, contentType: string, body: string, bodyFile: string)

  datatype File = File(response: Option<ResponseSpec>, limiters: seq<LimiterSpec>)

  /** Which files exist when the configuration is validated, and what reading one gives when it is built. */
  type Stat = string -> bool

  type Read = string -> Outcome<string>

  datatype Problem =
    | NoLimiters | NameMissing | NameMalformed | NameDuplicate
    | NoAlgorithm | BothAlgorithms | LimitRange | WindowRange | BlockRange | RateRange | BurstRange
    | KeyMissing | NoSource | ManySources | StraySeparator | BadNormaliser | LoneChild
    | PathEmpty | PathRelative | PathStar
    | MethodEmpty | MethodMalformed | MethodDuplicate
    | StatusRange | BothBodies | BodyFileMissing

  // ---------------------------------------------------------------- what a valid file is

  /** Exactly one source at every node, a known normaliser, and composites of two or more. */
  predicate ValidKey(k: KeySpec) {
    && k.Sources() == 1
    && (k.separator != "" ==> k.composite != [])
    && Normaliser.Parse(k.normalise).Ok?
    && |k.composite| != 1
    && (forall c :: c in k.first ==> ValidKey(c))
    && (forall c :: c in k.composite ==> ValidKey(c))
  }

  predicate ValidWindow(w: WindowSpec) {
    MIN_LIMIT <= w.limit <= MAX_LIMIT && MIN_WINDOW <= w.window <= MAX_WINDOW && MIN_BLOCK <= w.block <= MAX_BLOCK
  }

  predicate ValidBucket(b: BucketSpec) {
    MIN_RATE <= b.rate <= MAX_RATE && MIN_BURST <= b.burst <= MAX_BURST
  }

  predicate ValidAlgorithm(l: LimiterSpec) {
    || (l.window.Some? && l.bucket.None? && ValidWindow(l.window.value))
    || (l.window.None? && l.bucket.Some? && ValidBucket(l.bucket.value))
  }

  predicate IsTokenChar(c: char) {
    'a' <= c <= 'z' || 'A' <= c <= 'Z' || '0' <= c <= '9' || c in "!#$%&'*+-.^_`|~"
  }

  predicate IsToken(s: string) {
    s != "" && forall i :: 0 <= i < |s| ==> IsTokenChar(s[i])
  }

  predicate ValidMethods(methods: seq<string>) {
    && (forall i :: 0 <= i < |methods| ==> IsToken(methods[i]))
    && (forall i, j :: 0 <= i < j < |methods| ==> Paths.Lower(methods[i]) != Paths.Lower(methods[j]))
  }

  predicate ValidSpec(l: LimiterSpec) {
    && ValidName(l.name) && ValidAlgorithm(l)
    && l.key.Some? && ValidKey(l.key.value)
    && (forall i :: 0 <= i < |l.paths| ==> Paths.ValidPattern(l.paths[i]))
    && ValidMethods(l.methods)
  }

  predicate ValidResponse(r: Option<ResponseSpec>, stat: Stat) {
    r.Some? ==>
      && (r.value.status == 0 || 400 <= r.value.status <= 599)
      && (r.value.body == "" || r.value.bodyFile == "")
      && (r.value.bodyFile != "" ==> stat(r.value.bodyFile))
  }

  predicate DistinctNames(ls: seq<LimiterSpec>) {
    forall i, j :: 0 <= i < j < |ls| ==> ls[i].name != ls[j].name
  }

  predicate ValidFile(f: File, stat: Stat) {
    && f.limiters != [] && ValidResponse(f.response, stat) && DistinctNames(f.limiters)
    && forall i :: 0 <= i < |f.limiters| ==> ValidSpec(f.limiters[i]) && ValidResponse(f.limiters[i].response, stat)
  }

  // ---------------------------------------------------------------- the checks

  function KeyProblems(k: KeySpec): (ps: seq<Problem>)
    ensures ps == [] <==> ValidKey(k)
    decreases k, 1
  {
    SourceProblems(k) + FieldProblems(k) + ChildProblems(k.first) + ChildProblems(k.composite) + LoneProblems(k)
  }

  function SourceProblems(k: KeySpec): seq<Problem> {
    if k.Sources() == 0 then [NoSource] else if k.Sources() == 1 then [] else [ManySources]
  }

  function FieldProblems(k: KeySpec): seq<Problem> {
    (if k.separator != "" && k.composite == [] then [StraySeparator] else [])
    + (if Normaliser.Parse(k.normalise).Err? then [BadNormaliser] else [])
  }

  function LoneProblems(k: KeySpec): seq<Problem> {
    if |k.composite| == 1 then [LoneChild] else []
  }

  function ChildProblems(ks: seq<KeySpec>): (ps: seq<Problem>)
    ensures ps == [] <==> forall c :: c in ks ==> ValidKey(c)
    decreases ks, 0
  {
    if ks == [] then []
    else
      assert forall c :: c in ks <==> c == ks[0] || c in ks[1..];
      KeyProblems(ks[0]) + ChildProblems(ks[1..])
  }

  /** The places a key may be read from. */
  datatype Source = FromBody | FromHeader | FromQuery | FromFirst | FromComposite

  predicate Uses(k: KeySpec, s: Source) {
    match s
    case FromBody => k.body != ""
    case FromHeader => k.header != []
    case FromQuery => k.query != []
    case FromFirst => k.first != []
    case FromComposite => k.composite != []
  }

  /** What the count of sources tells: none, or exactly one, or two different ones. */
  lemma SourcesMeaning(k: KeySpec)
    ensures k.Sources() == 0 <==> forall s :: !Uses(k, s)
    ensures k.Sources() == 1 <==> exists s :: Uses(k, s) && forall t :: Uses(k, t) ==> t == s
    ensures k.Sources() > 1 <==> exists s, t :: s != t && Uses(k, s) && Uses(k, t)
  {
    var b, h, q, f, m := Uses(k, FromBody), Uses(k, FromHeader), Uses(k, FromQuery), Uses(k, FromFirst), Uses(k, FromComposite);
    assert forall s :: Uses(k, s) <==>
                       (s == FromBody && b) || (s == FromHeader && h) || (s == FromQuery && q) || (s == FromFirst && f) || (s == FromComposite && m);
    if k.Sources() == 1 {
      var s := if b then FromBody else if h then FromHeader else if q then FromQuery else if f then FromFirst else FromComposite;
      assert Uses(k, s);
    }
    if k.Sources() > 1 {
      var s := if b then FromBody else if h then FromHeader else if q then FromQuery else FromFirst;
      var t := if m then FromComposite else if f then FromFirst else if q then FromQuery else FromHeader;
      assert s != t && Uses(k, s) && Uses(k, t);
    }
  }

  /** What one node of a key does wrong. */
  predicate NodeHas(k: KeySpec, p: Problem) {
    match p
    case NoSource => k.Sources() == 0
    case ManySources => k.Sources() > 1
    case StraySeparator => k.separator != "" && k.composite == []
    case BadNormaliser => Normaliser.Parse(k.normalise).Err?
    case LoneChild => |k.composite| == 1
    case _ => false
  }

  /** Some node of the tree does it. */
  predicate TreeHas(k: KeySpec, p: Problem) {
    NodeHas(k, p) || (exists c :: c in k.first && TreeHas(c, p)) || (exists c :: c in k.composite && TreeHas(c, p))
  }

  /** A problem is reported exactly when some node of the tree has it. */
  lemma {:induction false} KeyProblemMeaning(k: KeySpec, p: Problem)
    ensures p in KeyProblems(k) <==> TreeHas(k, p)
    decreases k, 1
  {
    hide TreeHas, NodeHas, SourceProblems, FieldProblems, LoneProblems, ChildProblems, ValidKey;
    ChildProblemMeaning(k.first, p);
    ChildProblemMeaning(k.composite, p);
    TreeHasStep(k, p);
    NodeMeaning(k, p);
    InFive(SourceProblems(k), FieldProblems(k), ChildProblems(k.first), ChildProblems(k.composite), LoneProblems(k), p);
  }

  lemma NodeMeaning(k: KeySpec, p: Problem)
    ensures NodeHas(k, p) <==> p in SourceProblems(k) || p in FieldProblems(k) || p in LoneProblems(k)
  {
    hide Normaliser.Parse;
  }

  lemma InFive<T>(a: seq<T>, b: seq<T>, c: seq<T>, d: seq<T>, e: seq<T>, x: T)
    ensures x in a + b + c + d + e <==> x in a || x in b || x in c || x in d || x in e
  {
  }

  lemma TreeHasStep(k: KeySpec, p: Problem)
    ensures TreeHas(k, p) <==>
            NodeHas(k, p) || (exists c :: c in k.first && TreeHas(c, p)) || (exists c :: c in k.composite && TreeHas(c, p))
  {
    hide NodeHas;
  }

  lemma {:induction false} ChildProblemMeaning(ks: seq<KeySpec>, p: Problem)
    ensures p in ChildProblems(ks) <==> exists c :: c in ks && TreeHas(c, p)
    decreases ks, 0
  {
    hide TreeHas, KeyProblems;
    if ks == [] {
    } else {
      KeyProblemMeaning(ks[0], p);
      ChildProblemMeaning(ks[1..], p);
      assert forall c :: c in ks <==> c == ks[0] || c in ks[1..];
    }
  }

  function WindowProblems(w: WindowSpec): (ps: seq<Problem>)
    ensures ps == [] <==> ValidWindow(w)
    ensures LimitRange in ps <==> !(1 <= w.limit <= 10_000)
    ensures WindowRange in ps <==> !(SECOND <= w.window <= 3600 * SECOND)
    ensures BlockRange in ps <==> !(SECOND <= w.block <= 86_400 * SECOND)
  {
    (if w.limit < MIN_LIMIT || w.limit > MAX_LIMIT then [LimitRange] else [])
    + (if w.window < MIN_WINDOW || w.window > MAX_WINDOW then [WindowRange] else [])
    + (if w.block < MIN_BLOCK || w.block > MAX_BLOCK then [BlockRange] else [])
  }

  function BucketProblems(b: BucketSpec): (ps: seq<Problem>)
    ensures ps == [] <==> ValidBucket(b)
    ensures RateRange in ps <==> !(1 <= b.rate <= 1_000_000)
    ensures BurstRange in ps <==> !(1 <= b.burst <= 1_000_000)
  {
    (if b.rate < MIN_RATE || b.rate > MAX_RATE then [RateRange] else [])
    + (if b.burst < MIN_BURST || b.burst > MAX_BURST then [BurstRange] else [])
  }

  function AlgorithmProblems(l: LimiterSpec): (ps: seq<Problem>)
    ensures ps == [] <==> ValidAlgorithm(l)
    ensures NoAlgorithm in ps <==> l.window.None? && l.bucket.None?
    ensures BothAlgorithms in ps <==> l.window.Some? && l.bucket.Some?
  {
    if l.window.None? && l.bucket.None? then [NoAlgorithm]
    else if l.window.Some? && l.bucket.Some? then [BothAlgorithms]
    else if l.window.Some? then WindowProblems(l.window.value)
    else BucketProblems(l.bucket.value)
  }

  lemma EmptyConcat<T>(a: seq<T>, b: seq<T>)
    ensures a + b == [] <==> a == [] && b == []
  {
    assert |a + b| == |a| + |b|;
  }

  function PathProblem(p: string): (ps: seq<Problem>)
    ensures ps == [] <==> Paths.ValidPattern(p)
  {
    var trimmed := if StorageKeys.HasSuffix(p, "/*") then p[..|p| - 2] else p;
    if p == "" then [PathEmpty]
    else if !Paths.HasPrefix(p, "/") then [PathRelative]
    else if '*' in trimmed then [PathStar]
    else []
  }

  /** Which problem a pattern has. */
  lemma PathProblemMeaning(p: string)
    ensures PathEmpty in PathProblem(p) <==> p == ""
    ensures PathRelative in PathProblem(p) <==> p != "" && p[0] != '/'
    ensures PathStar in PathProblem(p) <==>
            p != "" && p[0] == '/' && exists i :: 0 <= i < |p| && p[i] == '*' && !(i == |p| - 1 && p[i - 1] == '/')
  {
    if p != "" && p[0] == '/' {
      assert p[..1] == "/";
      var trimmed := if StorageKeys.HasSuffix(p, "/*") then p[..|p| - 2] else p;
      assert StorageKeys.HasSuffix(p, "/*") <==> |p| >= 2 && p[|p| - 2] == '/' && p[|p| - 1] == '*' by {
        if |p| >= 2 {
          assert p[|p| - 2..] == [p[|p| - 2], p[|p| - 1]];
        }
      }
      if '*' in trimmed {
        var i :| 0 <= i < |trimmed| && trimmed[i] == '*';
        assert p[i] == '*';
      }
      if i :| 0 <= i < |p| && p[i] == '*' && !(i == |p| - 1 && p[i - 1] == '/') {
        assert trimmed[i] == '*';
      }
    } else if p != "" {
      assert p[..1] == [p[0]];
    }
  }

  /** The problems of the first n patterns, in order. */
  function PathProblems(paths: seq<string>, n: nat): seq<Problem>
    requires n <= |paths|
  {
    if n == 0 then [] else PathProblems(paths, n - 1) + PathProblem(paths[n - 1])
  }

  lemma {:induction false} NoPathProblems(paths: seq<string>, n: nat)
    requires n <= |paths|
    ensures PathProblems(paths, n) == [] <==> forall i :: 0 <= i < n ==> Paths.ValidPattern(paths[i])
  {
    hide PathProblem, Paths.ValidPattern;
    if n == 0 {
    } else {
      NoPathProblems(paths, n - 1);
      EmptyConcat(PathProblems(paths, n - 1), PathProblem(paths[n - 1]));
    }
  }

  method ValidatePath(p: string) returns (errs: seq<Problem>)
    ensures errs == PathProblem(p)
  {
    errs := [];
    var trimmed := if StorageKeys.HasSuffix(p, "/*") then p[..|p| - 2] else p;
    if p == "" {
      errs := [PathEmpty];
    } else if !Paths.HasPrefix(p, "/") {
      errs := [PathRelative];
    } else if '*' in trimmed {
      errs := [PathStar];
    }
  }

  method ValidatePaths(paths: seq<string>) returns (errs: seq<Problem>)
    ensures errs == PathProblems(paths, |paths|)
    ensures errs == [] <==> forall i :: 0 <= i < |paths| ==> Paths.ValidPattern(paths[i])
  {
    hide PathProblem, Paths.ValidPattern;
    errs := [];
    for i := 0 to |paths|
      invariant errs == PathProblems(paths, i)
    {
      var more := ValidatePath(paths[i]);
      errs := errs + more;
    }
    NoPathProblems(paths, |paths|);
  }

  /** Duplicates are compared without regard to case. */
  function MethodProblem(m: string, seen: set<string>): (ps: seq<Problem>)
    ensures ps == [] <==> IsToken(m) && Paths.Lower(m) !in seen
  {
    if m == "" then [MethodEmpty]
    else if !IsToken(m) then [MethodMalformed]
    else if Paths.Lower(m) in seen then [MethodDuplicate]
    else []
  }

  /** Which problem a method or a name has. */
  lemma MethodProblemMeaning(m: string, seen: set<string>)
    ensures MethodEmpty in MethodProblem(m, seen) <==> m == ""
    ensures MethodMalformed in MethodProblem(m, seen) <==> m != "" && !IsToken(m)
    ensures MethodDuplicate in MethodProblem(m, seen) <==> IsToken(m) && Paths.Lower(m) in seen
    ensures NameMissing in NameProblem(m, seen) <==> m == ""
    ensures NameMalformed in NameProblem(m, seen) <==> m != "" && !ValidName(m)
    ensures NameDuplicate in NameProblem(m, seen) <==> ValidName(m) && m in seen
  {
  }

  /** The well-formed methods before the i-th. */
  function MethodsBefore(methods: seq<string>, i: nat): set<string>
    requires i <= |methods|
  {
    set j | 0 <= j < i && IsToken(methods[j]) :: Paths.Lower(methods[j])
  }

  function MethodProblems(methods: seq<string>, n: nat): seq<Problem>
    requires n <= |methods|
  {
    if n == 0 then [] else MethodProblems(methods, n - 1) + MethodProblem(methods[n - 1], MethodsBefore(methods, n - 1))
  }

  lemma {:induction false} NoMethodProblems(methods: seq<string>, n: nat)
    requires n <= |methods|
    ensures MethodProblems(methods, n) == [] <==>
            && (forall i :: 0 <= i < n ==> IsToken(methods[i]))
            && (forall i, j :: 0 <= i < j < n ==> Paths.Lower(methods[i]) != Paths.Lower(methods[j]))
  {
    hide MethodProblem, IsToken, Paths.Lower;
    if n == 0 {
    } else {
      NoMethodProblems(methods, n - 1);
      EmptyConcat(MethodProblems(methods, n - 1), MethodProblem(methods[n - 1], MethodsBefore(methods, n - 1)));
    }
  }

  method ValidateMethod(m: string, seen: set<string>) returns (errs: seq<Problem>, methods: set<string>)
    ensures errs == MethodProblem(m, seen)
    ensures methods == if IsToken(m) then seen + {Paths.Lower(m)} else seen
  {
    errs, methods := [], seen;
    if m == "" {
      errs := [MethodEmpty];
    } else if !IsToken(m) {
      errs := [MethodMalformed];
    } else if Paths.Lower(m) in seen {
      errs := [MethodDuplicate];
    } else {
      methods := methods + {Paths.Lower(m)};
    }
  }

  method ValidateMethods(methods: seq<string>) returns (errs: seq<Problem>)
    ensures errs == MethodProblems(methods, |methods|)
    ensures errs == [] <==> ValidMethods(methods)
  {
    hide MethodProblem, IsToken, Paths.Lower;
    errs := [];
    var seen: set<string> := {};
    for i := 0 to |methods|
      invariant errs == MethodProblems(methods, i)
      invariant seen == MethodsBefore(methods, i)
    {
      var more: seq<Problem>;
      more, seen := ValidateMethod(methods[i], seen);
      errs := errs + more;
    }
    NoMethodProblems(methods, |methods|);
  }

  function NameProblem(name: string, seen: set<string>): (ps: seq<Problem>)
    ensures ps == [] <==> ValidName(name) && name !in seen
  {
    if name == "" then [NameMissing]
    else if !ValidName(name) then [NameMalformed]
    else if name in seen then [NameDuplicate]
    else []
  }

  function ResponseProblems(r: Option<ResponseSpec>, stat: Stat): (ps: seq<Problem>)
    ensures ps == [] <==> ValidResponse(r, stat)
    ensures StatusRange in ps <==> r.Some? && r.value.status != 0 && !(400 <= r.value.status <= 599)
    ensures BothBodies in ps <==> r.Some? && r.value.body != "" && r.value.bodyFile != ""
    ensures BodyFileMissing in ps <==> r.Some? && r.value.bodyFile != "" && !stat(r.value.bodyFile)
  {
    if r.None? then []
    else
      var spec := r.value;
      (if spec.status != 0 && (spec.status < 400 || spec.status > 599) then [StatusRange] else [])
      + (if spec.body != "" && spec.bodyFile != "" then [BothBodies] else [])
      + (if spec.bodyFile != "" && !stat(spec.bodyFile) then [BodyFileMissing] else [])
  }

  /** Everything wrong with an entry apart from its name and its response. */
  function SpecProblems(l: LimiterSpec): seq<Problem> {
    AlgorithmProblems(l)
    + (if l.key.None? then [KeyMissing] else KeyProblems(l.key.value))
    + (PathProblems(l.paths, |l.paths|) + MethodProblems(l.methods, |l.methods|))
  }

  /** Everything wrong with an entry, `seen` being the valid names before it. */
  function LimiterProblems(l: LimiterSpec, seen: set<string>, stat: Stat): seq<Problem> {
    NameProblem(l.name, seen) + SpecProblems(l) + ResponseProblems(l.response, stat)
  }

  lemma NoSpecProblems(l: LimiterSpec)
    ensures ValidSpec(l) <==> SpecProblems(l) == [] && ValidName(l.name)
  {
    hide NameProblem, AlgorithmProblems, KeyProblems, PathProblems, MethodProblems, ValidName, ValidKey, ValidAlgorithm,
         Paths.ValidPattern, IsToken, Paths.Lower;
    NoPathProblems(l.paths, |l.paths|);
    NoMethodProblems(l.methods, |l.methods|);
    var key := if l.key.None? then [KeyMissing] else KeyProblems(l.key.value);
    var scope := PathProblems(l.paths, |l.paths|) + MethodProblems(l.methods, |l.methods|);
    EmptyConcat(PathProblems(l.paths, |l.paths|), MethodProblems(l.methods, |l.methods|));
    EmptyConcat(AlgorithmProblems(l), key);
    EmptyConcat(AlgorithmProblems(l) + key, scope);
  }

  lemma NoLimiterProblems(l: LimiterSpec, seen: set<string>, stat: Stat)
    ensures LimiterProblems(l, seen, stat) == [] <==> ValidSpec(l) && l.name !in seen && ValidResponse(l.response, stat)
  {
    hide NameProblem, SpecProblems, ResponseProblems, ValidSpec, ValidName, ValidResponse;
    NoSpecProblems(l);
    EmptyConcat(NameProblem(l.name, seen), SpecProblems(l));
    EmptyConcat(NameProblem(l.name, seen) + SpecProblems(l), ResponseProblems(l.response, stat));
  }

  method ValidateResponse(r: Option<ResponseSpec>, stat: Stat) returns (errs: seq<Problem>)
    ensures errs == ResponseProblems(r, stat)
  {
    errs := [];
    if r.Some? {
      if r.value.status != 0 && (r.value.status < 400 || r.value.status > 599) {
        errs := errs + [StatusRange];
      }
      if r.value.body != "" && r.value.bodyFile != "" {
        errs := errs + [BothBodies];
      }
      if r.value.bodyFile != "" && !stat(r.value.bodyFile) {
        errs := errs + [BodyFileMissing];
      }
    }
  }

  method ValidateUniqueName(name: string, seen: set<string>) returns (errs: seq<Problem>, names: set<string>)
    ensures errs == NameProblem(name, seen)
    ensures names == if ValidName(name) then seen + {name} else seen
  {
    errs, names := [], seen;
    if name == "" {
      errs := [NameMissing];
    } else if !ValidName(name) {
      errs := [NameMalformed];
    } else if name in seen {
      errs := [NameDuplicate];
    } else {
      names := names + {name};
    }
  }

  /** One entry; `seen` carries the names used so far. */
  method ValidateLimiter(l: LimiterSpec, seen: set<string>, stat: Stat) returns (errs: seq<Problem>, names: set<string>)
    ensures errs == LimiterProblems(l, seen, stat)
    ensures errs == [] <==> ValidSpec(l) && l.name !in seen && ValidResponse(l.response, stat)
    ensures names == if ValidName(l.name) then seen + {l.name} else seen
  {
    hide NameProblem, AlgorithmProblems, KeyProblems, PathProblems, MethodProblems, ResponseProblems, ValidSpec, ValidName,
         ValidResponse;
    var name: seq<Problem>;
    name, names := ValidateUniqueName(l.name, seen);
    var key := if l.key.None? then [KeyMissing] else KeyProblems(l.key.value);
    var paths := ValidatePaths(l.paths);
    var methods := ValidateMethods(l.methods);
    var response := ValidateResponse(l.response, stat);
    errs := name + (AlgorithmProblems(l) + key + (paths + methods)) + response;
    NoLimiterProblems(l, seen, stat);
  }

  function NamesBefore(ls: seq<LimiterSpec>, i: nat): set<string>
    requires i <= |ls|
  {
    set j | 0 <= j < i && ValidName(ls[j].name) :: ls[j].name
  }

  /** Everything wrong with the first n entries, in order. */
  function EntryProblems(ls: seq<LimiterSpec>, n: nat, stat: Stat): seq<Problem>
    requires n <= |ls|
  {
    if n == 0 then [] else EntryProblems(ls, n - 1, stat) + LimiterProblems(ls[n - 1], NamesBefore(ls, n - 1), stat)
  }

  /** Everything wrong with the file as a whole. */
  function GlobalProblems(f: File, stat: Stat): seq<Problem> {
    (if |f.limiters| == 0 then [NoLimiters] else []) + ResponseProblems(f.response, stat)
  }

  function FileProblems(f: File, stat: Stat): seq<Problem> {
    GlobalProblems(f, stat) + EntryProblems(f.limiters, |f.limiters|, stat)
  }

  /** Collects every problem of every entry, and there is none exactly when the file is valid. */
  method Validate(f: File, stat: Stat) returns (errs: seq<Problem>)
    ensures errs == FileProblems(f, stat)
    ensures errs == [] <==> ValidFile(f, stat)
  {
    hide ValidSpec, ValidName, LimiterProblems, EntryProblems, ResponseProblems, ValidResponse, ValidEntries;
    errs := if |f.limiters| == 0 then [NoLimiters] else [];
    var response := ValidateResponse(f.response, stat);
    errs := errs + response;
    ghost var first := errs;
    var seen: set<string> := {};
    NoEntries(f.limiters, first, stat);
    for i := 0 to |f.limiters|
      invariant errs == first + EntryProblems(f.limiters, i, stat)
      invariant seen == NamesBefore(f.limiters, i)
    {
      EntryProblemsStep(f.limiters, i, stat);
      var more: seq<Problem>;
      more, seen := ValidateLimiter(f.limiters[i], seen, stat);
      errs := errs + more;
    }
    NoFileProblems(f, stat);
  }

  lemma NoEntries(ls: seq<LimiterSpec>, first: seq<Problem>, stat: Stat)
    ensures first + EntryProblems(ls, 0, stat) == first && EntryProblems(ls, 0, stat) == [] && ValidEntries(ls, 0, stat)
  {
  }

  lemma NoFileProblems(f: File, stat: Stat)
    ensures FileProblems(f, stat) == [] <==> ValidFile(f, stat)
  {
    hide ValidSpec, EntryProblems, ResponseProblems, ValidResponse;
    NoEntryProblems(f.limiters, |f.limiters|, stat);
    EmptyConcat(GlobalProblems(f, stat), EntryProblems(f.limiters, |f.limiters|, stat));
    EmptyConcat(if |f.limiters| == 0 then [NoLimiters] else [], ResponseProblems(f.response, stat));
  }

  predicate ValidEntries(ls: seq<LimiterSpec>, n: nat, stat: Stat)
    requires n <= |ls|
  {
    && (forall i :: 0 <= i < n ==> ValidSpec(ls[i]) && ValidResponse(ls[i].response, stat))
    && (forall i, j :: 0 <= i < j < n ==> ls[i].name != ls[j].name)
  }

  lemma ValidEntriesStep(ls: seq<LimiterSpec>, n: nat, stat: Stat)
    requires n < |ls|
    ensures ValidEntries(ls, n + 1, stat) <==>
            && ValidEntries(ls, n, stat)
            && ValidSpec(ls[n]) && ls[n].name !in NamesBefore(ls, n) && ValidResponse(ls[n].response, stat)
  {
    forall i | 0 <= i < n && ValidSpec(ls[i]) ensures ValidName(ls[i].name) {
    }
    hide ValidSpec, ValidName, ValidResponse;
  }

  lemma EntryProblemsStep(ls: seq<LimiterSpec>, n: nat, stat: Stat)
    requires n < |ls|
    ensures EntryProblems(ls, n + 1, stat) == EntryProblems(ls, n, stat) + LimiterProblems(ls[n], NamesBefore(ls, n), stat)
    ensures EntryProblems(ls, n + 1, stat) == [] <==>
            && EntryProblems(ls, n, stat) == []
            && ValidSpec(ls[n]) && ls[n].name !in NamesBefore(ls, n) && ValidResponse(ls[n].response, stat)
  {
    hide LimiterProblems, NamesBefore, ValidSpec, ValidResponse;
    var seen := NamesBefore(ls, n);
    NoLimiterProblems(ls[n], seen, stat);
    EmptyConcat(EntryProblems(ls, n, stat), LimiterProblems(ls[n], seen, stat));
  }

  lemma {:induction false} NoEntryProblems(ls: seq<LimiterSpec>, n: nat, stat: Stat)
    requires n <= |ls|
    ensures EntryProblems(ls, n, stat) == [] <==> ValidEntries(ls, n, stat)
  {
    NoEntries(ls, [], stat);
    hide EntryProblems, ValidEntries, ValidSpec, LimiterProblems, NamesBefore, ValidResponse;
    if n == 0 {
    } else {
      NoEntryProblems(ls, n - 1, stat);
      EntryProblemsStep(ls, n - 1, stat);
      ValidEntriesStep(ls, n - 1, stat);
    }
  }

  /** One mistake hides no other: whatever is wrong with an entry is reported, whatever else is. */
  lemma {:induction false} EveryProblemReported(f: File, i: nat, n: nat, p: Problem, stat: Stat)
    requires i < n <= |f.limiters| && p in LimiterProblems(f.limiters[i], NamesBefore(f.limiters, i), stat)
    ensures p in EntryProblems(f.limiters, n, stat) && (n == |f.limiters| ==> p in FileProblems(f, stat))
    decreases n
  {
    hide LimiterProblems, GlobalProblems;
    if i == n - 1 {
    } else {
      EveryProblemReported(f, i, n - 1, p, stat);
    }
  }

  // ---------------------------------------------------------------- building

  /** A built keyer; `hashed` nodes replace their value by its HMAC. */
  datatype Keyer =
    | BodyField(field: string, norm: Normaliser.Kind, hashed: bool)
    | Header(names: seq<string>, norm: Normaliser.Kind, hashed: bool)
    | QueryParam(names: seq<string>, norm: Normaliser.Kind, hashed: bool)
    | FirstOf(parts: seq<Keyer>, norm: Normaliser.Kind, hashed: bool)
    | Composite(parts: seq<Keyer>, sep: string, norm: Normaliser.Kind, hashed: bool)

  /** Some node of the tree asks for hashing. */
  predicate AsksHash(k: KeySpec) {
    k.hash || (exists c :: c in k.first && AsksHash(c)) || (exists c :: c in k.composite && AsksHash(c))
  }

  /** Some node of the keyer hashes. */
  predicate Hashes(k: Keyer) {
    k.hashed || ((k.FirstOf? || k.Composite?) && exists p :: p in k.parts && Hashes(p))
  }

  /** Every subnet normaliser in the tree has prefix lengths in range. */
  predicate SubnetsInRange(k: Keyer) {
    && (k.norm.IpSubnet? ==> 0 <= k.norm.v4 <= 32 && 0 <= k.norm.v6 <= 128)
    && (k.FirstOf? || k.Composite? ==> forall p :: p in k.parts ==> SubnetsInRange(p))
  }

  datatype BuiltKey = BuiltKey(keyer: Keyer, needsHash: bool)

  function BuildKeyer(spec: KeySpec): (r: Outcome<BuiltKey>)
    decreases spec, 1
  {
    var norm := Normaliser.Parse(spec.normalise);
    if norm.Err? then Err
    else if spec.body != "" then Ok(BuiltKey(BodyField(spec.body, norm.value, spec.hash), spec.hash))
    else if |spec.header| > 0 then Ok(BuiltKey(Header(spec.header, norm.value, spec.hash), spec.hash))
    else if |spec.query| > 0 then Ok(BuiltKey(QueryParam(spec.query, norm.value, spec.hash), spec.hash))
    else if |spec.first| > 0 then
      var c := BuildChildren(spec.first);
      if c.Err? then Err else Ok(BuiltKey(FirstOf(c.value.0, norm.value, spec.hash), c.value.1 || spec.hash))
    else if |spec.composite| > 0 then
      var c := BuildChildren(spec.composite);
      if c.Err? then Err
      else Ok(BuiltKey(Composite(c.value.0, spec.separator, norm.value, spec.hash), c.value.1 || spec.hash))
    else Err
  }

  function BuildChildren(specs: seq<KeySpec>): (r: Outcome<(seq<Keyer>, bool)>)
    ensures r.Ok? ==> |r.value.0| == |specs|
    decreases specs, 0
  {
    if specs == [] then Ok(([], false))
    else
      var h, t := BuildKeyer(specs[0]), BuildChildren(specs[1..]);
      if h.Err? || t.Err? then Err else Ok(([h.value.keyer] + t.value.0, h.value.needsHash || t.value.1))
  }

  /** A validated key always builds; hashing is asked for, reported and present in the keyer together. */
  lemma {:induction false} ValidKeyBuilds(k: KeySpec)
    requires ValidKey(k)
    ensures BuildKeyer(k).Ok?
    ensures BuildKeyer(k).value.needsHash <==> AsksHash(k)
    ensures Hashes(BuildKeyer(k).value.keyer) <==> AsksHash(k)
    ensures SubnetsInRange(BuildKeyer(k).value.keyer)
    decreases k, 1
  {
    hide Normaliser.Parse;
    if k.first != [] {
      ValidChildrenBuild(k.first);
    } else if k.composite != [] {
      ValidChildrenBuild(k.composite);
    }
  }

  lemma {:induction false} ValidChildrenBuild(ks: seq<KeySpec>)
    requires forall c :: c in ks ==> ValidKey(c)
    ensures BuildChildren(ks).Ok?
    ensures BuildChildren(ks).value.1 <==> exists c :: c in ks && AsksHash(c)
    ensures (exists p :: p in BuildChildren(ks).value.0 && Hashes(p)) <==> exists c :: c in ks && AsksHash(c)
    ensures forall p :: p in BuildChildren(ks).value.0 ==> SubnetsInRange(p)
    decreases ks, 0
  {
    if ks == [] {
    } else {
      assert forall c :: c in ks <==> c == ks[0] || c in ks[1..];
      ValidKeyBuilds(ks[0]);
      ValidChildrenBuild(ks[1..]);
      var h, t := BuildKeyer(ks[0]).value.keyer, BuildChildren(ks[1..]).value.0;
      assert forall p :: p in [h] + t <==> p == h || p in t;
    }
  }

  /** The keyer reads the spec's source, at every node, with the spec's normaliser and hashing. */
  predicate Mirrors(k: KeySpec, b: Keyer)
    decreases b
  {
    && b.hashed == k.hash && Normaliser.Parse(k.normalise) == Ok(b.norm)
    && match b
       case BodyField(field, _, _) => field == k.body != ""
       case Header(names, _, _) => names == k.header != []
       case QueryParam(names, _, _) => names == k.query != []
       case FirstOf(parts, _, _) =>
         k.first != [] && |parts| == |k.first| && forall i :: 0 <= i < |parts| ==> Mirrors(k.first[i], parts[i])
       case Composite(parts, sep, _, _) =>
         sep == k.separator && k.composite != [] && |parts| == |k.composite|
         && forall i :: 0 <= i < |parts| ==> Mirrors(k.composite[i], parts[i])
  }

  lemma {:induction false} KeyerMirrors(k: KeySpec)
    requires BuildKeyer(k).Ok?
    ensures Mirrors(k, BuildKeyer(k).value.keyer)
    decreases k, 1
  {
    if BuildChildren(k.first).Ok? {
      ChildrenMirror(k.first);
    }
    if BuildChildren(k.composite).Ok? {
      ChildrenMirror(k.composite);
    }
  }

  lemma {:induction false} ChildrenMirror(ks: seq<KeySpec>)
    requires BuildChildren(ks).Ok?
    ensures forall i :: 0 <= i < |ks| ==> Mirrors(ks[i], BuildChildren(ks).value.0[i])
    decreases ks, 0
  {
    if ks == [] {
    } else {
      hide Mirrors, BuildKeyer;
      KeyerMirrors(ks[0]);
      ChildrenMirror(ks[1..]);
    }
  }

  /** Turns a built keyer into the function the engine calls; extraction and HMAC live behind it. */
  type Extract = (Keyer, Engine.Request) -> Engine.Keying

  function BuildLimiter(l: LimiterSpec, keyer: Keyer, extract: Extract): Engine.Limiter
    requires l.window.Some? || l.bucket.Some?
  {
    var rule := if l.window.Some? then Rule(l.window.value.limit, l.window.value.window, l.window.value.block) else Rule(0, 0, 0);
    var bucket := if l.window.Some? then Bucket(0, 0) else Bucket(l.bucket.value.rate, l.bucket.value.burst);
    Engine.Limiter(l.name, rule, bucket, req => extract(keyer, req), l.paths, l.methods, l.dryRun, l.retryAfter)
  }

  /** A limiter that needs a hash secret there is none of. */
  predicate Dropped(l: LimiterSpec, secret: string) {
    l.key.Some? && AsksHash(l.key.value) && secret == ""
  }

  /** What a file means: its limiters in order, without the dropped ones. */
  function Kept(ls: seq<LimiterSpec>, secret: string, extract: Extract): seq<Engine.Limiter>
    requires forall i :: 0 <= i < |ls| ==> ValidSpec(ls[i])
  {
    if ls == [] then []
    else
      var l := ls[|ls| - 1];
      assert ValidSpec(l);
      ValidKeyBuilds(l.key.value);
      Kept(ls[..|ls| - 1], secret, extract)
      + if Dropped(l, secret) then [] else [BuildLimiter(l, BuildKeyer(l.key.value).value.keyer, extract)]
  }

  /** The limiters that were dropped, in order, and a last word when nothing is left. */
  datatype Warning = NeedsSecret(name: string) | NothingActive

  function DroppedNames(ls: seq<LimiterSpec>, secret: string): seq<Warning> {
    if ls == [] then []
    else
      var l := ls[|ls| - 1];
      DroppedNames(ls[..|ls| - 1], secret) + if Dropped(l, secret) then [NeedsSecret(l.name)] else []
  }

  datatype Response = Response(status: int, contentType: string, body: string)

  const DEFAULT_RESPONSE := Response(429, "application/json", "{\"error\":\"rate_limited\"}")

  datatype Built = Built(limiters: seq<Engine.Limiter>, responses: map<string, Response>, fallback: Response,
                         warnings: seq<Warning>)

  predicate Unreadable(spec: ResponseSpec, read: Read) {
    spec.bodyFile != "" && read(spec.bodyFile).Err?
  }

  /** What the spec sets is the result's own, and what it leaves unset is the base's. */
  predicate Overlays(spec: ResponseSpec, base: Response, read: Read, r: Response) {
    && (spec.status != 0 ==> r.status == spec.status)
    && (spec.status == 0 ==> r.status == base.status)
    && (spec.contentType != "" ==> r.contentType == spec.contentType)
    && (spec.contentType == "" ==> r.contentType == base.contentType)
    && (spec.bodyFile != "" ==> read(spec.bodyFile) == Ok(r.body))
    && (spec.bodyFile == "" && spec.body != "" ==> r.body == spec.body)
    && (spec.bodyFile == "" && spec.body == "" ==> r.body == base.body)
  }

  /** What is set overrides the base; a body file goes before a body. */
  function Resolve(spec: ResponseSpec, base: Response, read: Read): (r: Outcome<Response>)
    ensures r.Err? <==> Unreadable(spec, read)
    ensures r.Ok? ==> Overlays(spec, base, read, r.value)
  {
    var body :=
      if spec.bodyFile != "" then read(spec.bodyFile) else Ok(if spec.body != "" then spec.body else base.body);
    if body.Err? then Err
    else
      Ok(Response(if spec.status != 0 then spec.status else base.status,
                  if spec.contentType != "" then spec.contentType else base.contentType, body.value))
  }

  /** The limiter's response, or None when it uses the file's. */
  function OwnResponse(l: LimiterSpec, base: Response, read: Read): Option<Response> {
    if l.response.Some? && Resolve(l.response.value, base, read).Ok? then Some(Resolve(l.response.value, base, read).value) else None
  }

  function Fallback(f: File, read: Read): Response {
    if f.response.Some? && Resolve(f.response.value, DEFAULT_RESPONSE, read).Ok?
    then Resolve(f.response.value, DEFAULT_RESPONSE, read).value
    else DEFAULT_RESPONSE
  }

  /** The overrides of the limiters that are kept. */
  function Overrides(ls: seq<LimiterSpec>, secret: string, base: Response, read: Read): map<string, Response> {
    if ls == [] then map[]
    else
      var l, before := ls[|ls| - 1], Overrides(ls[..|ls| - 1], secret, base, read);
      if Dropped(l, secret) || OwnResponse(l, base, read).None? then before
      else before[l.name := OwnResponse(l, base, read).value]
  }

  /** The source demands a key and an algorithm, which validation guarantees. */
  predicate Buildable(l: LimiterSpec) {
    l.key.Some? && (l.window.Some? || l.bucket.Some?)
  }

  /** The entry stops the build: its key does not build, or it is kept and its body file cannot be read. */
  predicate Fails(l: LimiterSpec, secret: string, read: Read)
    requires Buildable(l)
  {
    var k := BuildKeyer(l.key.value);
    k.Err? || (!(k.value.needsHash && secret == "") && l.response.Some? && Unreadable(l.response.value, read))
  }

  method Build(f: File, secret: string, extract: Extract, read: Read) returns (r: Outcome<Built>)
    requires forall i :: 0 <= i < |f.limiters| ==> Buildable(f.limiters[i])
    ensures r.Err? <==> (f.response.Some? && Unreadable(f.response.value, read)) ||
                        exists i :: 0 <= i < |f.limiters| && Fails(f.limiters[i], secret, read)
    ensures r.Ok? ==> r.value.fallback == Fallback(f, read)
    ensures r.Ok? && (forall i :: 0 <= i < |f.limiters| ==> ValidSpec(f.limiters[i])) ==>
              && r.value.limiters == Kept(f.limiters, secret, extract)
              && r.value.responses == Overrides(f.limiters, secret, Fallback(f, read), read)
              && r.value.warnings == DroppedNames(f.limiters, secret) + if r.value.limiters == [] then [NothingActive] else []
  {
    hide ValidSpec, ValidKey, AsksHash, BuildLimiter, BuildKeyer, Resolve, Unreadable, Kept, Overrides, DroppedNames, Dropped;
    var limiters, warnings, responses := [], [], map[];
    var fallback := DEFAULT_RESPONSE;
    if f.response.Some? {
      var resolved := Resolve(f.response.value, DEFAULT_RESPONSE, read);
      if resolved.Err? {
        return Err;
      }
      fallback := resolved.value;
    }
    NothingBuilt(f.limiters, secret, extract, fallback, read);
    ghost var valid := forall i :: 0 <= i < |f.limiters| ==> ValidSpec(f.limiters[i]);
    for i := 0 to |f.limiters|
      invariant forall j :: 0 <= j < i ==> !Fails(f.limiters[j], secret, read)
      invariant valid ==> limiters == Kept(f.limiters[..i], secret, extract)
      invariant valid ==> responses == Overrides(f.limiters[..i], secret, fallback, read)
      invariant valid ==> warnings == DroppedNames(f.limiters[..i], secret)
    {
      var spec := f.limiters[i];
      var k := BuildKeyer(spec.key.value);
      if valid {
        SpecKeyBuilds(spec, secret);
        BuiltStep(f.limiters, i, secret, extract, fallback, read);
      }
      if k.Err? {
        return Err;
      }
      if k.value.needsHash && secret == "" {
        warnings := warnings + [NeedsSecret(spec.name)];
        continue;
      }
      limiters := limiters + [BuildLimiter(spec, k.value.keyer, extract)];
      if spec.response.Some? {
        var resolved := Resolve(spec.response.value, fallback, read);
        if resolved.Err? {
          return Err;
        }
        responses := responses[spec.name := resolved.value];
      }
    }
    assert f.limiters[..|f.limiters|] == f.limiters;
    if |limiters| == 0 {
      warnings := warnings + [NothingActive];
    }
    return Ok(Built(limiters, responses, fallback, warnings));
  }

  lemma SpecKeyBuilds(l: LimiterSpec, secret: string)
    requires ValidSpec(l)
    ensures l.key.Some? && BuildKeyer(l.key.value).Ok?
    ensures BuildKeyer(l.key.value).value.needsHash && secret == "" <==> Dropped(l, secret)
  {
    ValidKeyBuilds(l.key.value);
  }

  lemma NothingBuilt(ls: seq<LimiterSpec>, secret: string, extract: Extract, base: Response, read: Read)
    ensures Kept(ls[..0], secret, extract) == [] && Overrides(ls[..0], secret, base, read) == map[] && DroppedNames(ls[..0], secret) == []
  {
  }

  /** What entry n adds to the build. */
  lemma BuiltStep(ls: seq<LimiterSpec>, n: nat, secret: string, extract: Extract, base: Response, read: Read)
    requires n < |ls| && forall i :: 0 <= i < |ls| ==> ValidSpec(ls[i])
    ensures ls[n].key.Some? && BuildKeyer(ls[n].key.value).Ok? && (ls[n].window.Some? || ls[n].bucket.Some?)
    ensures Kept(ls[..n + 1], secret, extract) ==
            Kept(ls[..n], secret, extract) +
            if Dropped(ls[n], secret) then [] else [BuildLimiter(ls[n], BuildKeyer(ls[n].key.value).value.keyer, extract)]
    ensures DroppedNames(ls[..n + 1], secret) ==
            DroppedNames(ls[..n], secret) + if Dropped(ls[n], secret) then [NeedsSecret(ls[n].name)] else []
    ensures
      var before, own := Overrides(ls[..n], secret, base, read), OwnResponse(ls[n], base, read);
      Overrides(ls[..n + 1], secret, base, read) ==
      if Dropped(ls[n], secret) || own.None? then before else before[ls[n].name := own.value]
  {
    assert ls[..n + 1][..n] == ls[..n];
    assert ValidSpec(ls[n]);
    KeptStep(ls[..n + 1], secret, extract);
    hide Kept, Dropped, OwnResponse, BuildLimiter, BuildKeyer, ValidKey;
  }

  /**
   * Building what passed validation fails exactly when a body file that is still wanted cannot be
   * read: validation only checks that it exists.
   */
  lemma ValidBuildsUnlessUnreadable(f: File, secret: string, read: Read, stat: Stat)
    requires ValidFile(f, stat)
    ensures forall i :: 0 <= i < |f.limiters| ==> Buildable(f.limiters[i])
    ensures
      (exists i :: 0 <= i < |f.limiters| && Fails(f.limiters[i], secret, read)) <==>
      exists i :: 0 <= i < |f.limiters| && !Dropped(f.limiters[i], secret) && f.limiters[i].response.Some? &&
                  Unreadable(f.limiters[i].response.value, read)
  {
    hide ValidKey, AsksHash, BuildKeyer, Unreadable, Dropped;
    forall i | 0 <= i < |f.limiters|
      ensures
        && Buildable(f.limiters[i])
        && (Fails(f.limiters[i], secret, read) <==>
            !Dropped(f.limiters[i], secret) && f.limiters[i].response.Some? && Unreadable(f.limiters[i].response.value, read))
    {
      assert ValidSpec(f.limiters[i]);
      SpecKeyBuilds(f.limiters[i], secret);
    }
  }

  /** Who overrides the response, and with what: names are distinct, so no override replaces another. */
  lemma {:induction false} OverrideOf(ls: seq<LimiterSpec>, secret: string, base: Response, read: Read, i: nat)
    requires DistinctNames(ls) && i < |ls|
    ensures Get(Overrides(ls, secret, base, read), ls[i].name) == if Dropped(ls[i], secret) then None else OwnResponse(ls[i], base, read)
    ensures forall name :: name in Overrides(ls, secret, base, read) ==> exists j :: 0 <= j < |ls| && ls[j].name == name
    decreases |ls|
  {
    hide Dropped, OwnResponse;
    var n := |ls| - 1;
    OverrideNames(ls[..n], secret, base, read);
    OverrideNames(ls, secret, base, read);
    if i == n {
      assert forall j :: 0 <= j < n ==> ls[..n][j].name != ls[n].name;
    } else {
      OverrideOf(ls[..n], secret, base, read, i);
    }
  }

  /** The response the built configuration gives to a rejection by this limiter. */
  function ResponseTo(responses: map<string, Response>, fallback: Response, name: string): Response {
    if name in responses then responses[name] else fallback
  }

  const NO_RESPONSE := ResponseSpec(0, "", "", "")

  function Given(r: Option<ResponseSpec>): ResponseSpec {
    if r.Some? then r.value else NO_RESPONSE
  }

  /**
   * The response to a rejection, field by field: what the limiter's entry sets, else what the file
   * sets, else status 429 with a small JSON body.
   */
  lemma EffectiveResponse(f: File, secret: string, read: Read, i: nat)
    requires DistinctNames(f.limiters) && i < |f.limiters| && !Dropped(f.limiters[i], secret)
    requires !Unreadable(Given(f.response), read) && !Unreadable(Given(f.limiters[i].response), read)
    ensures
      var own, file := Given(f.limiters[i].response), Given(f.response);
      var fallback := Fallback(f, read);
      var r := ResponseTo(Overrides(f.limiters, secret, fallback, read), fallback, f.limiters[i].name);
      && (own.status != 0 ==> r.status == own.status)
      && (own.status == 0 && file.status != 0 ==> r.status == file.status)
      && (own.status == 0 && file.status == 0 ==> r.status == 429)
      && (own.contentType != "" ==> r.contentType == own.contentType)
      && (own.contentType == "" && file.contentType != "" ==> r.contentType == file.contentType)
      && (own.contentType == "" && file.contentType == "" ==> r.contentType == "application/json")
      && (own.bodyFile != "" ==> read(own.bodyFile) == Ok(r.body))
      && (own.bodyFile == "" && own.body != "" ==> r.body == own.body)
      && (own.bodyFile == "" && own.body == "" && file.bodyFile != "" ==> read(file.bodyFile) == Ok(r.body))
      && (own.bodyFile == "" && own.body == "" && file.bodyFile == "" && file.body != "" ==> r.body == file.body)
      && (own.bodyFile == "" && own.body == "" && file.bodyFile == "" && file.body == "" ==>
            r.body == "{\"error\":\"rate_limited\"}")
  {
    var fallback, l := Fallback(f, read), f.limiters[i];
    FallbackOverlays(f, read);
    OwnOverlays(l, fallback, read);
    hide Overrides, Dropped, OwnResponse, Fallback, Resolve;
    OverrideOf(f.limiters, secret, fallback, read, i);
  }

  lemma FallbackOverlays(f: File, read: Read)
    requires !Unreadable(Given(f.response), read)
    ensures Overlays(Given(f.response), DEFAULT_RESPONSE, read, Fallback(f, read))
  {
    hide Overlays, Resolve;
    if f.response.None? {
      NothingSet(DEFAULT_RESPONSE, read);
    }
  }

  lemma OwnOverlays(l: LimiterSpec, base: Response, read: Read)
    requires !Unreadable(Given(l.response), read)
    ensures
      var own := OwnResponse(l, base, read);
      Overlays(Given(l.response), base, read, if own.Some? then own.value else base)
  {
    hide Overlays, Resolve;
    if l.response.None? {
      NothingSet(base, read);
    }
  }

  lemma NothingSet(base: Response, read: Read)
    ensures Overlays(NO_RESPONSE, base, read, base)
  {
  }

  lemma {:induction false} OverrideNames(ls: seq<LimiterSpec>, secret: string, base: Response, read: Read)
    ensures forall name :: name in Overrides(ls, secret, base, read) ==> exists j :: 0 <= j < |ls| && ls[j].name == name
  {
    hide Dropped, OwnResponse;
    if ls == [] {
    } else {
      var n := |ls| - 1;
      OverrideNames(ls[..n], secret, base, read);
      forall name | name in Overrides(ls, secret, base, read) ensures exists j :: 0 <= j < |ls| && ls[j].name == name {
        if name == ls[n].name {
        } else {
          assert name in Overrides(ls[..n], secret, base, read);
          var j :| 0 <= j < |ls[..n]| && ls[..n][j].name == name;
          assert ls[j].name == name;
        }
      }
    }
  }

  /** What the rest of the system relies on. */
  predicate Sound(l: Engine.Limiter) {
    && ValidName(l.name)
    && (l.rule.Valid() <==> !l.bucket.Valid())
    && (forall i :: 0 <= i < |l.paths| ==> Paths.ValidPattern(l.paths[i]))
  }

  /** A limiter that does what its entry in the file says. */
  ghost predicate Implements(l: Engine.Limiter, spec: LimiterSpec, extract: Extract) {
    && l.name == spec.name && l.paths == spec.paths && l.methods == spec.methods
    && l.dryRun == spec.dryRun && l.adviseRetryAfter == spec.retryAfter
    && (spec.window.Some? ==> l.rule == Rule(spec.window.value.limit, spec.window.value.window, spec.window.value.block))
    && (spec.window.None? && spec.bucket.Some? ==> l.bucket == Bucket(spec.bucket.value.rate, spec.bucket.value.burst))
    && spec.key.Some? && BuildKeyer(spec.key.value).Ok?
    && var keyer := BuildKeyer(spec.key.value).value.keyer;
       && Mirrors(spec.key.value, keyer) && SubnetsInRange(keyer)
       && forall req: Engine.Request :: l.keyer(req) == extract(keyer, req)
  }

  /** The k-th kept limiter implements spec number origin[k], and every spec that is not dropped is kept. */
  ghost predicate Comes(ls: seq<LimiterSpec>, secret: string, extract: Extract, ks: seq<Engine.Limiter>, origin: seq<nat>) {
    && |origin| == |ks|
    && (forall k :: 0 <= k < |ks| ==>
                      origin[k] < |ls| && !Dropped(ls[origin[k]], secret) && Implements(ks[k], ls[origin[k]], extract))
    && (forall k, m :: 0 <= k < m < |ks| ==> origin[k] < origin[m])
    && (forall i :: 0 <= i < |ls| && !Dropped(ls[i], secret) ==> i in origin)
  }

  lemma BuiltIsSound(l: LimiterSpec, extract: Extract)
    requires ValidSpec(l)
    ensures BuildKeyer(l.key.value).Ok?
    ensures
      var built := BuildLimiter(l, BuildKeyer(l.key.value).value.keyer, extract);
      Sound(built) && Implements(built, l, extract)
  {
    ValidKeyBuilds(l.key.value);
    KeyerMirrors(l.key.value);
    hide Mirrors, SubnetsInRange, BuildKeyer, ValidKey, AsksHash, Hashes;
  }

  lemma KeptNone(secret: string, extract: Extract)
    ensures Kept([], secret, extract) == []
  {
  }

  /** The last limiter of the file is appended or left out. */
  lemma KeptStep(ls: seq<LimiterSpec>, secret: string, extract: Extract)
    requires ls != [] && forall i :: 0 <= i < |ls| ==> ValidSpec(ls[i])
    ensures
      var l, before := ls[|ls| - 1], Kept(ls[..|ls| - 1], secret, extract);
      && ValidSpec(l) && BuildKeyer(l.key.value).Ok?
      && Kept(ls, secret, extract) ==
         before + if Dropped(l, secret) then [] else [BuildLimiter(l, BuildKeyer(l.key.value).value.keyer, extract)]
  {
    assert ValidSpec(ls[|ls| - 1]);
    ValidKeyBuilds(ls[|ls| - 1].key.value);
    hide Dropped, BuildLimiter, BuildKeyer, ValidKey, AsksHash;
  }

  lemma {:induction false} KeptComes(ls: seq<LimiterSpec>, secret: string, extract: Extract) returns (origin: seq<nat>)
    requires forall i :: 0 <= i < |ls| ==> ValidSpec(ls[i])
    ensures Comes(ls, secret, extract, Kept(ls, secret, extract), origin)
  {
    if ls == [] {
      origin := [];
    } else {
      hide ValidSpec, Dropped, BuildLimiter, BuildKeyer, Kept, Comes, Implements, Sound;
      var n := |ls| - 1;
      origin := KeptComes(ls[..n], secret, extract);
      KeptStep(ls, secret, extract);
      var before := Kept(ls[..n], secret, extract);
      if Dropped(ls[n], secret) {
        ComesDropped(ls, secret, extract, before, origin);
        assert Kept(ls, secret, extract) == before;
      } else {
        BuiltIsSound(ls[n], extract);
        ComesKept(ls, secret, extract, before, origin, BuildLimiter(ls[n], BuildKeyer(ls[n].key.value).value.keyer, extract));
        origin := origin + [n];
      }
    }
  }

  lemma {:induction false} KeptSound(ls: seq<LimiterSpec>, secret: string, extract: Extract)
    requires forall i :: 0 <= i < |ls| ==> ValidSpec(ls[i])
    ensures forall k :: 0 <= k < |Kept(ls, secret, extract)| ==> Sound(Kept(ls, secret, extract)[k])
  {
    if ls == [] {
    } else {
      hide ValidSpec, Dropped, BuildLimiter, BuildKeyer, Kept, Sound;
      KeptSound(ls[..|ls| - 1], secret, extract);
      KeptStep(ls, secret, extract);
      BuiltIsSound(ls[|ls| - 1], extract);
    }
  }

  lemma ComesDropped(ls: seq<LimiterSpec>, secret: string, extract: Extract, ks: seq<Engine.Limiter>, origin: seq<nat>)
    requires ls != [] && Dropped(ls[|ls| - 1], secret) && Comes(ls[..|ls| - 1], secret, extract, ks, origin)
    ensures Comes(ls, secret, extract, ks, origin) && |origin| == |ks|
  {
    hide Dropped, Implements;
    assert forall i :: 0 <= i < |ls| - 1 ==> ls[..|ls| - 1][i] == ls[i];
  }

  lemma ComesKept(ls: seq<LimiterSpec>, secret: string, extract: Extract, ks: seq<Engine.Limiter>, origin: seq<nat>, built: Engine.Limiter)
    requires ls != [] && !Dropped(ls[|ls| - 1], secret) && Comes(ls[..|ls| - 1], secret, extract, ks, origin)
    requires Implements(built, ls[|ls| - 1], extract)
    ensures Comes(ls, secret, extract, ks + [built], origin + [|ls| - 1]) && |origin| == |ks|
  {
    hide Dropped, Implements;
    var n := |ls| - 1;
    assert forall i :: 0 <= i < n ==> ls[..n][i] == ls[i];
    forall i | 0 <= i < |ls| && !Dropped(ls[i], secret) ensures i in origin + [n] {
      if i < n { assert i in origin; }
    }
  }

  /**
   * Validation makes building total: the built limiters are the file's, in order, without exactly
   * those that ask for hashing when there is no secret; their names are valid and distinct, and each
   * enforces exactly one valid algorithm.
   */
  lemma BuiltLimiters(f: File, secret: string, extract: Extract, stat: Stat) returns (origin: seq<nat>)
    requires ValidFile(f, stat)
    ensures
      var kept := Kept(f.limiters, secret, extract);
      && Comes(f.limiters, secret, extract, kept, origin)
      && (forall k :: 0 <= k < |kept| ==> Sound(kept[k]))
      && (forall k, m :: 0 <= k < m < |kept| ==> kept[k].name != kept[m].name)
  {
    hide ValidSpec, Sound, Kept, Dropped, BuildKeyer;
    origin := KeptComes(f.limiters, secret, extract);
    KeptSound(f.limiters, secret, extract);
  }
}
