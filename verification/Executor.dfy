/** One request through admission, the build phase and the test cases. */
module Execution {
  import opened Types
  import opened OutputCompare
  import RenderArgs
  import opened Sandbox
  import opened Verdict
  import Stats

  datatype RunError =
    | Overloaded | UnknownLanguage | SourceTooLarge | TooManyTests | UnsafeSourceFile | UnsafeArtifact
    | DisallowedFlag(flag: string) | OverrideTooBig(test: Option<nat>, field: string)
    | Filesystem(text: Message) | SandboxFailed(text: Message)

  function Worded(start: Message, rest: string): Message {
    assert |start + rest| > 0;
    start + rest
  }

  /** An error in (shortened) words. */
  function ErrorText(e: RunError): Message {
    match e
    case Overloaded => "server overloaded"
    case UnknownLanguage => "unknown language"
    case SourceTooLarge => "source too large"
    case TooManyTests => "too many test cases"
    case UnsafeSourceFile => "unsafe source_file"
    case UnsafeArtifact => "unsafe artifact"
    case DisallowedFlag(flag) => Worded("disallowed flag: ", flag)
    case OverrideTooBig(_, field) => Worded("override too big: ", field)
    case Filesystem(text) => text
    case SandboxFailed(text) => text
  }

  /** What the environment decides about one call: where the job lives, whether preparing the job
      directory fails, how the k-th sandboxed process ends, and how long the call takes. */
  datatype World = World(
    jobDir: string, setupFailure: Option<Message>, process: (nat, RunSpec) -> ProcessEnd, elapsed: int)

  type Registry = map<string, Language>

  // ----- Checks before anything runs -----

  function FirstDisallowed(user: seq<string>, allowed: seq<string>): Option<RunError> {
    if user == [] then None
    else if user[0] !in allowed then Some(DisallowedFlag(user[0]))
    else FirstDisallowed(user[1..], allowed)
  }

  /** The first user flag that the language does not allow, if any. */
  method FilterFlags(user: seq<string>, allowed: seq<string>) returns (err: Option<RunError>)
    ensures err == FirstDisallowed(user, allowed)
    ensures err == None <==> forall f | f in user :: f in allowed
  {
    if |user| == 0 {
      return None;
    }
    var known: set<string> := {};
    for i := 0 to |allowed|
      invariant forall f :: f in known <==> f in allowed[..i]
    {
      known := known + {allowed[i]};
    }
    assert allowed[..|allowed|] == allowed;
    for i := 0 to |user|
      invariant FirstDisallowed(user, allowed) == FirstDisallowed(user[i..], allowed)
      invariant forall j | 0 <= j < i :: user[j] in allowed
    {
      if user[i] !in known {
        return Some(DisallowedFlag(user[i]));
      }
    }
    return None;
  }

  predicate Fits(timeLimitS: int, memoryKB: int, phase: Phase) {
    timeLimitS <= phase.timeLimitS && memoryKB <= phase.memoryKB
  }

  predicate AllFit(cases: seq<TestCase>, phase: Phase) {
    forall tc | tc in cases :: tc.timeLimitS <= phase.timeLimitS && tc.memoryKB <= phase.memoryKB
  }

  /** The first override above its language limit, from the `i`-th test case on. */
  function FirstTooBig(cases: seq<TestCase>, i: nat, phase: Phase): Option<RunError>
    requires i <= |cases|
    decreases |cases| - i
  {
    if i == |cases| then None
    else if cases[i].timeLimitS > phase.timeLimitS then Some(OverrideTooBig(Some(i), "time_limit_s"))
    else if cases[i].memoryKB > phase.memoryKB then Some(OverrideTooBig(Some(i), "memory_kb"))
    else FirstTooBig(cases, i + 1, phase)
  }

  function OverrideError(lang: Language, req: Request): Option<RunError> {
    if req.timeLimitS > lang.run.timeLimitS then Some(OverrideTooBig(None, "time_limit_s"))
    else if req.memoryKB > lang.run.memoryKB then Some(OverrideTooBig(None, "memory_kb"))
    else FirstTooBig(req.testCases, 0, lang.run)
  }

  method BoundOverrides(lang: Language, req: Request) returns (err: Option<RunError>)
    ensures err == OverrideError(lang, req)
  {
    var maxT, maxM := lang.run.timeLimitS, lang.run.memoryKB;
    if req.timeLimitS > maxT {
      return Some(OverrideTooBig(None, "time_limit_s"));
    }
    if req.memoryKB > maxM {
      return Some(OverrideTooBig(None, "memory_kb"));
    }
    for i := 0 to |req.testCases|
      invariant FirstTooBig(req.testCases, 0, lang.run) == FirstTooBig(req.testCases, i, lang.run)
    {
      var tc := req.testCases[i];
      if tc.timeLimitS > maxT {
        return Some(OverrideTooBig(Some(i), "time_limit_s"));
      }
      if tc.memoryKB > maxM {
        return Some(OverrideTooBig(Some(i), "memory_kb"));
      }
    }
    return None;
  }

  /** Test case `j` is the first one, from `i` on, that asks for too much, and `e` says so. */
  predicate BlamesFirst(cases: seq<TestCase>, i: nat, phase: Phase, e: RunError, j: nat) {
    && i <= j < |cases| && e.OverrideTooBig? && e.test == Some(j)
    && e.field == (if cases[j].timeLimitS > phase.timeLimitS then "time_limit_s" else "memory_kb")
    && !Fits(cases[j].timeLimitS, cases[j].memoryKB, phase)
    && forall k | i <= k < j :: Fits(cases[k].timeLimitS, cases[k].memoryKB, phase)
  }

  lemma {:induction false} FirstTooBigExactly(cases: seq<TestCase>, i: nat, phase: Phase)
    requires i <= |cases|
    ensures FirstTooBig(cases, i, phase) == None
            <==> forall j | i <= j < |cases| :: Fits(cases[j].timeLimitS, cases[j].memoryKB, phase)
    ensures FirstTooBig(cases, i, phase).Some? ==>
              exists j: nat :: BlamesFirst(cases, i, phase, FirstTooBig(cases, i, phase).value, j)
    decreases |cases| - i
  {
    if i < |cases| {
      FirstTooBigExactly(cases, i + 1, phase);
      if !Fits(cases[i].timeLimitS, cases[i].memoryKB, phase) {
        assert BlamesFirst(cases, i, phase, FirstTooBig(cases, i, phase).value, i);
      } else if FirstTooBig(cases, i, phase).Some? {
        var j: nat :| BlamesFirst(cases, i + 1, phase, FirstTooBig(cases, i + 1, phase).value, j);
        assert BlamesFirst(cases, i, phase, FirstTooBig(cases, i, phase).value, j);
      }
    }
  }

  /** A request passes exactly when neither it nor any test case asks for more than the language allows; an
      error about a test case names the first offender. */
  lemma OverridesBoundedExactly(lang: Language, req: Request)
    ensures OverrideError(lang, req) == None
            <==> && req.timeLimitS <= lang.run.timeLimitS && req.memoryKB <= lang.run.memoryKB
                 && AllFit(req.testCases, lang.run)
    ensures Fits(req.timeLimitS, req.memoryKB, lang.run) && OverrideError(lang, req).Some? ==>
              exists j: nat :: BlamesFirst(req.testCases, 0, lang.run, OverrideError(lang, req).value, j)
  {
    FirstTooBigExactly(req.testCases, 0, lang.run);
  }

  function Precheck(cfg: Config, reg: Registry, req: Request, w: World): Option<RunError> {
    if req.language !in reg then Some(UnknownLanguage) else
    var lang := reg[req.language];
    if |req.source| > cfg.maxSourceBytes then Some(SourceTooLarge)
    else if |req.testCases| > cfg.maxTestCases then Some(TooManyTests)
    else if !IsSafeName(lang.sourceFile) then Some(UnsafeSourceFile)
    else if lang.artifact != "" && !IsSafeName(lang.artifact) then Some(UnsafeArtifact)
    else if lang.build.Some? && FirstDisallowed(req.buildFlags, lang.build.value.allowedFlags).Some? then
      FirstDisallowed(req.buildFlags, lang.build.value.allowedFlags)
    else if FirstDisallowed(req.runFlags, lang.run.allowedFlags).Some? then
      FirstDisallowed(req.runFlags, lang.run.allowedFlags)
    else if OverrideError(lang, req).Some? then OverrideError(lang, req)
    else if w.setupFailure.Some? then Some(Filesystem(w.setupFailure.value))
    else None
  }

  lemma {:induction false} FirstDisallowedExactly(user: seq<string>, allowed: seq<string>)
    ensures FirstDisallowed(user, allowed) == None <==> forall f | f in user :: f in allowed
    ensures match FirstDisallowed(user, allowed)
            case None => true
            case Some(e) => e.DisallowedFlag? && e.flag in user && e.flag !in allowed
    decreases |user|
  {
    if user != [] {
      FirstDisallowedExactly(user[1..], allowed);
      assert user == [user[0]] + user[1..];
    }
  }

  /** What a request must satisfy for anything to run. */
  lemma PrecheckExactly(cfg: Config, reg: Registry, req: Request, w: World)
    ensures Precheck(cfg, reg, req, w) == None
            <==> && req.language in reg
                 && |req.source| <= cfg.maxSourceBytes && |req.testCases| <= cfg.maxTestCases
                 && var lang := reg[req.language];
                 && IsSafeName(lang.sourceFile) && (lang.artifact == "" || IsSafeName(lang.artifact))
                 && (lang.build.Some? ==> forall f | f in req.buildFlags :: f in lang.build.value.allowedFlags)
                 && (forall f | f in req.runFlags :: f in lang.run.allowedFlags)
                 && req.timeLimitS <= lang.run.timeLimitS && req.memoryKB <= lang.run.memoryKB
                 && (forall tc | tc in req.testCases :: tc.timeLimitS <= lang.run.timeLimitS && tc.memoryKB <= lang.run.memoryKB)
                 && w.setupFailure == None
  {
    if req.language in reg {
      var lang := reg[req.language];
      FirstDisallowedExactly(req.runFlags, lang.run.allowedFlags);
      OverridesBoundedExactly(lang, req);
      if lang.build.Some? {
        FirstDisallowedExactly(req.buildFlags, lang.build.value.allowedFlags);
      }
    }
  }

  /** The wording of an error ends in what it is about, and is the cause's own where there is one. */
  lemma ErrorTextNames(e: RunError)
    ensures match e
            case DisallowedFlag(flag) => |flag| < |ErrorText(e)| && ErrorText(e)[|ErrorText(e)| - |flag|..] == flag
            case OverrideTooBig(_, field) => |field| < |ErrorText(e)| && ErrorText(e)[|ErrorText(e)| - |field|..] == field
            case Filesystem(text) => ErrorText(e) == text
            case SandboxFailed(text) => ErrorText(e) == text
            case _ => true
  {
  }

  /** Within the size limits and with safe names. */
  predicate Presentable(cfg: Config, lang: Language, req: Request) {
    && |req.source| <= cfg.maxSourceBytes && |req.testCases| <= cfg.maxTestCases
    && IsSafeName(lang.sourceFile) && (lang.artifact == "" || IsSafeName(lang.artifact))
  }

  predicate FlagsAllowed(lang: Language, req: Request) {
    && (lang.build.Some? ==> forall f | f in req.buildFlags :: f in lang.build.value.allowedFlags)
    && forall f | f in req.runFlags :: f in lang.run.allowedFlags
  }

  /** Which error a request gets: the language comes first, then sizes, names, flags (those of the build before those
      of the run), limits (the request's before those of its cases) and the job directory. */
  lemma WhichErrorExactly(cfg: Config, reg: Registry, req: Request, w: World)
    ensures Precheck(cfg, reg, req, w) == Some(UnknownLanguage) <==> req.language !in reg
    ensures req.language in reg ==>
            var lang, err := reg[req.language], Precheck(cfg, reg, req, w);
            && (err == Some(SourceTooLarge) <==> |req.source| > cfg.maxSourceBytes)
            && (err == Some(TooManyTests) <==> |req.source| <= cfg.maxSourceBytes && |req.testCases| > cfg.maxTestCases)
            && (err == Some(UnsafeSourceFile)
                <==> && |req.source| <= cfg.maxSourceBytes && |req.testCases| <= cfg.maxTestCases
                     && !IsSafeName(lang.sourceFile))
            && (err == Some(UnsafeArtifact)
                <==> && |req.source| <= cfg.maxSourceBytes && |req.testCases| <= cfg.maxTestCases
                     && IsSafeName(lang.sourceFile) && lang.artifact != "" && !IsSafeName(lang.artifact))
            && ((err.Some? && err.value.DisallowedFlag?) <==> Presentable(cfg, lang, req) && !FlagsAllowed(lang, req))
            && ((err.Some? && err.value.OverrideTooBig?)
                <==> && Presentable(cfg, lang, req) && FlagsAllowed(lang, req)
                     && !(&& req.timeLimitS <= lang.run.timeLimitS && req.memoryKB <= lang.run.memoryKB
                          && AllFit(req.testCases, lang.run)))
            && err != Some(Overloaded) && !(err.Some? && err.value.SandboxFailed?)
  {
    if req.language in reg {
      var lang := reg[req.language];
      FirstDisallowedExactly(req.runFlags, lang.run.allowedFlags);
      OverridesBoundedExactly(lang, req);
      if lang.build.Some? {
        FirstDisallowedExactly(req.buildFlags, lang.build.value.allowedFlags);
      }
    }
  }

  /** What the error says: the flag that is not allowed, the limit that is exceeded, the failure of the directory. */
  lemma ErrorSaysWhat(cfg: Config, reg: Registry, req: Request, w: World)
    requires req.language in reg && Precheck(cfg, reg, req, w).Some?
    ensures var lang, e := reg[req.language], Precheck(cfg, reg, req, w).value;
            match e
            case DisallowedFlag(f) =>
              || (lang.build.Some? && f in req.buildFlags && f !in lang.build.value.allowedFlags)
              || (f in req.runFlags && f !in lang.run.allowedFlags)
            case OverrideTooBig(None, field) =>
              if req.timeLimitS > lang.run.timeLimitS then field == "time_limit_s"
              else req.memoryKB > lang.run.memoryKB && field == "memory_kb"
            case OverrideTooBig(Some(i), field) =>
              && i < |req.testCases|
              && (if req.testCases[i].timeLimitS > lang.run.timeLimitS then field == "time_limit_s"
                  else req.testCases[i].memoryKB > lang.run.memoryKB && field == "memory_kb")
            case Filesystem(text) => w.setupFailure == Some(text)
            case _ => true
  {
    var lang := reg[req.language];
    FirstDisallowedExactly(req.runFlags, lang.run.allowedFlags);
    OverridesBoundedExactly(lang, req);
    if lang.build.Some? {
      FirstDisallowedExactly(req.buildFlags, lang.build.value.allowedFlags);
    }
  }

  // ----- Sandboxed processes -----

  /** The build limit in seconds; a missing one means thirty. */
  function BuildLimitS(phase: Phase): int {
    if phase.timeLimitS <= 0 then 30 else phase.timeLimitS
  }

  function BuildSpec(cfg: Config, lang: Language, phase: Phase, jobDir: string, flags: seq<string>): RunSpec {
    RunSpec(cfg.nsjailPath, jobDir, phase.command, RenderArgs.RenderAll(phase.args, lang, flags), "",
            BuildLimitS(phase) * NANOS_PER_S, phase.memoryKB, phase.maxProcesses, cfg.maxOutputBytes, cfg.jailUID, cfg.jailGID)
  }

  /** A positive override replaces the language's limit. */
  function Limit(override: int, default: int): int {
    if override > 0 then override else default
  }

  function TestSpec(cfg: Config, lang: Language, jobDir: string, flags: seq<string>, stdin: string,
                    timeLimitS: int, memoryKB: int): RunSpec {
    RunSpec(cfg.nsjailPath, jobDir, lang.run.command, RenderArgs.RenderAll(lang.run.args, lang, flags), stdin,
            Limit(timeLimitS, lang.run.timeLimitS) * NANOS_PER_S, Limit(memoryKB, lang.run.memoryKB),
            lang.run.maxProcesses, cfg.maxOutputBytes, cfg.jailUID, cfg.jailGID)
  }

  function CaseSpec(cfg: Config, lang: Language, jobDir: string, flags: seq<string>, tc: TestCase): RunSpec {
    TestSpec(cfg, lang, jobDir, flags, tc.input, tc.timeLimitS, tc.memoryKB)
  }

  function BuildResult(out: Outcome): BuildPhase {
    match out
    case Broken(text) => BuildPhase(BuildBroken, "", text, 0)
    case Finished(r) =>
      BuildPhase(if r.exitCode != 0 || r.timedOut || r.oomKilled then BuildDidFail else BuildOk,
                 r.stdout, r.stderr, Milliseconds(r.duration))
  }

  function ExitStatus(r: Sandbox.Result): Status {
    if r.timedOut then TimeExceeded
    else if r.oomKilled then MemoryExceeded
    else if r.exitCode != 0 then RuntimeError
    else Accepted
  }

  function RunOneResult(out: Outcome): TestResult {
    match out
    case Broken(text) => TestResult(InternalError, "", text, 0, None, 0, 0)
    case Finished(r) =>
      TestResult(ExitStatus(r), r.stdout, r.stderr, r.exitCode, r.signal, Milliseconds(r.duration), r.maxRSSKB)
  }

  function OutputStatus(c: Comparison): Status {
    match c
    case Exact => Accepted
    case WhitespaceOnly => WhitespaceMismatch
    case Mismatch => WrongOutput
  }

  /** A test that ended well is judged by its output. */
  function Judge(tr: TestResult, expected: string): TestResult {
    if tr.status != Accepted then tr else tr.(status := OutputStatus(CompareOutput(tr.stdout, expected)))
  }

  /** Output verdicts count as accepted where there is no expected output. */
  function Lenient(s: Status): Status {
    if s == WrongOutput || s == WhitespaceMismatch then Accepted else s
  }

  function RunTestResult(cfg: Config, lang: Language, jobDir: string, flags: seq<string>, tc: TestCase, p: ProcessEnd): TestResult {
    Judge(RunOneResult(Observe(CaseSpec(cfg, lang, jobDir, flags, tc), p)), tc.expectedOutput)
  }

  method RunOne(cfg: Config, lang: Language, w: World, k: nat, flags: seq<string>, stdin: string, timeLimitS: int, memoryKB: int)
    returns (tr: TestResult, spec: RunSpec)
    ensures spec == TestSpec(cfg, lang, w.jobDir, flags, stdin, timeLimitS, memoryKB)
    ensures tr == RunOneResult(Observe(spec, w.process(k, spec)))
  {
    var args := RenderArgs.Render(lang.run.args, lang, flags);
    var limitS := lang.run.timeLimitS;
    if timeLimitS > 0 {
      limitS := timeLimitS;
    }
    var memKB := lang.run.memoryKB;
    if memoryKB > 0 {
      memKB := memoryKB;
    }
    spec := RunSpec(cfg.nsjailPath, w.jobDir, lang.run.command, args, stdin, limitS * NANOS_PER_S, memKB,
                    lang.run.maxProcesses, cfg.maxOutputBytes, cfg.jailUID, cfg.jailGID);
    var out := Sandbox.Run(spec, w.process(k, spec));
    match out {
      case Broken(text) =>
        tr := TestResult(InternalError, "", text, 0, None, 0, 0);
      case Finished(res) =>
        var status := Accepted;
        if res.timedOut {
          status := TimeExceeded;
        } else if res.oomKilled {
          status := MemoryExceeded;
        } else if res.exitCode != 0 {
          status := RuntimeError;
        }
        tr := TestResult(status, res.stdout, res.stderr, res.exitCode, res.signal, Milliseconds(res.duration), res.maxRSSKB);
    }
  }

  method RunTest(cfg: Config, lang: Language, w: World, k: nat, flags: seq<string>, tc: TestCase)
    returns (tr: TestResult, spec: RunSpec)
    ensures spec == CaseSpec(cfg, lang, w.jobDir, flags, tc)
    ensures tr == RunTestResult(cfg, lang, w.jobDir, flags, tc, w.process(k, spec))
  {
    tr, spec := RunOne(cfg, lang, w, k, flags, tc.input, tc.timeLimitS, tc.memoryKB);
    if tr.status != Accepted {
      return;
    }
    match CompareOutput(tr.stdout, tc.expectedOutput) {
      case Exact =>
      case WhitespaceOnly => tr := tr.(status := WhitespaceMismatch);
      case Mismatch => tr := tr.(status := WrongOutput);
    }
  }

  // ----- The run as a function of the request and the environment -----

  /** The response, the error if any, and every process spec handed to the sandbox, in order. */
  datatype RunResult = RunResult(resp: Response, err: Option<RunError>, calls: seq<RunSpec>)

  function Failed(e: RunError): RunResult {
    RunResult(Response(InternalError, None, []), Some(e), [])
  }

  const NOT_EXECUTED := TestResult(NotExecuted, "", "", 0, None, 0, 0)

  function NotRun(n: nat): seq<TestResult> {
    if n == 0 then [] else NotRun(n - 1) + [NOT_EXECUTED]
  }

  function CaseSpecs(cfg: Config, lang: Language, jobDir: string, flags: seq<string>, cases: seq<TestCase>): seq<RunSpec> {
    if cases == [] then []
    else CaseSpecs(cfg, lang, jobDir, flags, cases[..|cases| - 1]) + [CaseSpec(cfg, lang, jobDir, flags, cases[|cases| - 1])]
  }

  /** The results of the test cases; `first` is the number of processes run before them. */
  function CaseResults(cfg: Config, lang: Language, w: World, first: nat, flags: seq<string>, cases: seq<TestCase>): seq<TestResult> {
    if cases == [] then []
    else
      var n := |cases| - 1;
      var p := w.process(first + n, CaseSpec(cfg, lang, w.jobDir, flags, cases[n]));
      CaseResults(cfg, lang, w, first, flags, cases[..n]) + [RunTestResult(cfg, lang, w.jobDir, flags, cases[n], p)]
  }

  /** A request without test cases is run once on empty input, with the request's own limits. */
  function SmokeResult(cfg: Config, lang: Language, w: World, first: nat, req: Request): TestResult {
    var spec := TestSpec(cfg, lang, w.jobDir, req.runFlags, "", req.timeLimitS, req.memoryKB);
    var tr := RunOneResult(Observe(spec, w.process(first, spec)));
    tr.(status := Lenient(tr.status))
  }

  function RunCases(cfg: Config, lang: Language, req: Request, w: World, build: Option<BuildPhase>, before: seq<RunSpec>): RunResult {
    var tests := if req.testCases == [] then [SmokeResult(cfg, lang, w, |before|, req)]
                 else CaseResults(cfg, lang, w, |before|, req.runFlags, req.testCases);
    var specs := if req.testCases == [] then [TestSpec(cfg, lang, w.jobDir, req.runFlags, "", req.timeLimitS, req.memoryKB)]
                 else CaseSpecs(cfg, lang, w.jobDir, req.runFlags, req.testCases);
    var resp := Response(Accepted, build, tests);
    RunResult(resp.(status := RollupOf(resp)), None, before + specs)
  }

  function RunPhases(cfg: Config, lang: Language, req: Request, w: World): RunResult {
    match lang.build
    case None => RunCases(cfg, lang, req, w, None, [])
    case Some(phase) =>
      var spec := BuildSpec(cfg, lang, phase, w.jobDir, req.buildFlags);
      var out := Observe(spec, w.process(0, spec));
      var b := BuildResult(out);
      if out.Broken? then RunResult(Response(InternalError, Some(b), []), Some(SandboxFailed(out.text)), [spec])
      else if b.status != BuildOk then RunResult(Response(BuildFailed, Some(b), NotRun(|req.testCases|)), None, [spec])
      else RunCases(cfg, lang, req, w, Some(b), [spec])
  }

  /** What an admitted call does. */
  function AdmittedRun(cfg: Config, reg: Registry, req: Request, w: World): RunResult {
    match Precheck(cfg, reg, req, w)
    case Some(e) => Failed(e)
    case None => RunPhases(cfg, reg[req.language], req, w)
  }

  // ----- The executor object -----

  class Executor {
    const cfg: Config
    const reg: Registry
    const stats: Stats.Metrics
    /** The number of elements in the buffered channel. */
    var sem: nat

    ghost predicate Valid()
      reads this, stats, stats.ring
    {
      stats.Valid() && sem <= Capacity()
    }

    function Capacity(): nat {
      cfg.maxConcurrency + cfg.queueDepth
    }

    constructor (cfg: Config, reg: Registry)
      ensures Valid() && this.cfg == cfg && this.reg == reg && sem == 0 && fresh(stats) && fresh(stats.ring)
      ensures stats.total == stats.rejected == stats.inFlight == 0 && stats.history == []
    {
      this.cfg, this.reg, sem := cfg, reg, 0;
      stats := new Stats.Metrics();
    }

    /** A call that finds no free slot is turned away; any other call takes a slot, is counted and measured,
        and has given everything back when it returns. */
    method Run(req: Request, w: World) returns (resp: Response, err: Option<RunError>, calls: seq<RunSpec>)
      requires Valid()
      modifies this`sem, stats, stats.ring
      ensures Valid() && sem == old(sem) && stats.inFlight == old(stats.inFlight)
      ensures old(sem) < cfg.maxConcurrency + cfg.queueDepth ==>
                && RunResult(resp, err, calls) == AdmittedRun(cfg, reg, req, w)
                && stats.total == old(stats.total) + 1 && stats.rejected == old(stats.rejected)
                && stats.history == old(stats.history) + [w.elapsed]
      ensures old(sem) == cfg.maxConcurrency + cfg.queueDepth ==>
                && RunResult(resp, err, calls) == Failed(Overloaded)
                && stats.rejected == old(stats.rejected) + 1 && stats.total == old(stats.total)
                && stats.history == old(stats.history)
    {
      if sem == Capacity() {
        stats.IncRejected();
        return Response(InternalError, None, []), Some(Overloaded), [];
      }
      sem := sem + 1;
      stats.IncInFlight();
      resp, err, calls := RunAdmitted(req, w);
      stats.Observe(w.elapsed);
      stats.DecInFlight();
      sem := sem - 1;
    }

    method RunAdmitted(req: Request, w: World) returns (resp: Response, err: Option<RunError>, calls: seq<RunSpec>)
      ensures RunResult(resp, err, calls) == AdmittedRun(cfg, reg, req, w)
    {
      resp, calls := Response(InternalError, None, []), [];
      err := CheckRequest(req, w);
      if err.Some? {
        return;
      }
      var lang := reg[req.language];
      var build: Option<BuildPhase> := None;
      if lang.build.Some? {
        var b, out, spec := RunBuild(lang, lang.build.value, req, w);
        build := Some(b);
        calls := [spec];
        if out.Broken? {
          return Response(InternalError, build, []), Some(SandboxFailed(out.text)), calls;
        }
        if b.status != BuildOk {
          var skipped := [];
          for i := 0 to |req.testCases|
            invariant skipped == NotRun(i)
          {
            skipped := skipped + [NOT_EXECUTED];
          }
          return Response(BuildFailed, build, skipped), None, calls;
        }
      }
      var tests, specs := RunTests(lang, req, w, |calls|);
      calls := calls + specs;
      var status := Rollup(Response(Accepted, build, tests));
      resp := Response(status, build, tests);
    }

    method CheckRequest(req: Request, w: World) returns (err: Option<RunError>)
      ensures err == Precheck(cfg, reg, req, w)
    {
      if req.language !in reg {
        return Some(UnknownLanguage);
      }
      var lang := reg[req.language];
      if |req.source| > cfg.maxSourceBytes {
        return Some(SourceTooLarge);
      }
      if |req.testCases| > cfg.maxTestCases {
        return Some(TooManyTests);
      }
      if !IsSafeName(lang.sourceFile) {
        return Some(UnsafeSourceFile);
      }
      if lang.artifact != "" && !IsSafeName(lang.artifact) {
        return Some(UnsafeArtifact);
      }
      if lang.build.Some? {
        err := FilterFlags(req.buildFlags, lang.build.value.allowedFlags);
        if err.Some? {
          return;
        }
      }
      err := FilterFlags(req.runFlags, lang.run.allowedFlags);
      if err.Some? {
        return;
      }
      err := BoundOverrides(lang, req);
      if err.Some? {
        return;
      }
      if w.setupFailure.Some? {
        return Some(Filesystem(w.setupFailure.value));
      }
    }

    method RunBuild(lang: Language, phase: Phase, req: Request, w: World) returns (b: BuildPhase, out: Outcome, spec: RunSpec)
      ensures spec == BuildSpec(cfg, lang, phase, w.jobDir, req.buildFlags)
      ensures out == Observe(spec, w.process(0, spec)) && b == BuildResult(out)
    {
      var args := RenderArgs.Render(phase.args, lang, req.buildFlags);
      var limit := phase.timeLimitS * NANOS_PER_S;
      if limit <= 0 {
        limit := 30 * NANOS_PER_S;
      }
      spec := RunSpec(cfg.nsjailPath, w.jobDir, phase.command, args, "", limit, phase.memoryKB, phase.maxProcesses,
                      cfg.maxOutputBytes, cfg.jailUID, cfg.jailGID);
      out := Sandbox.Run(spec, w.process(0, spec));
      match out {
        case Broken(text) =>
          b := BuildPhase(BuildBroken, "", text, 0);
        case Finished(res) =>
          var status := BuildOk;
          if res.exitCode != 0 || res.timedOut || res.oomKilled {
            status := BuildDidFail;
          }
          b := BuildPhase(status, res.stdout, res.stderr, Milliseconds(res.duration));
      }
    }

    method RunTests(lang: Language, req: Request, w: World, first: nat) returns (tests: seq<TestResult>, specs: seq<RunSpec>)
      ensures req.testCases == [] ==>
                && tests == [SmokeResult(cfg, lang, w, first, req)]
                && specs == [TestSpec(cfg, lang, w.jobDir, req.runFlags, "", req.timeLimitS, req.memoryKB)]
      ensures req.testCases != [] ==>
                && tests == CaseResults(cfg, lang, w, first, req.runFlags, req.testCases)
                && specs == CaseSpecs(cfg, lang, w.jobDir, req.runFlags, req.testCases)
    {
      if |req.testCases| == 0 {
        var tr, spec := RunOne(cfg, lang, w, first, req.runFlags, "", req.timeLimitS, req.memoryKB);
        if tr.status == WrongOutput || tr.status == WhitespaceMismatch {
          tr := tr.(status := Accepted);
        }
        tests, specs := [tr], [spec];
      } else {
        tests, specs := RunAll(lang, req.runFlags, req.testCases, w, first);
      }
    }

    method RunAll(lang: Language, flags: seq<string>, cases: seq<TestCase>, w: World, first: nat)
      returns (tests: seq<TestResult>, specs: seq<RunSpec>)
      ensures tests == CaseResults(cfg, lang, w, first, flags, cases)
      ensures specs == CaseSpecs(cfg, lang, w.jobDir, flags, cases)
    {
      tests, specs := [], [];
      for i := 0 to |cases|
        invariant tests == CaseResults(cfg, lang, w, first, flags, cases[..i])
        invariant specs == CaseSpecs(cfg, lang, w.jobDir, flags, cases[..i])
      {
        var tr, spec := RunTest(cfg, lang, w, first + i, flags, cases[i]);
        tests := tests + [tr];
        specs := specs + [spec];
        assert cases[..i + 1][..i] == cases[..i];
      }
      assert cases[..|cases|] == cases;
    }
  }
}
