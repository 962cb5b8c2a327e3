/** What every run of the executor guarantees. */
module ExecutionFacts {
  import opened Types
  import opened OutputCompare
  import RenderArgs
  import opened OutputCapture
  import opened Sandbox
  import opened Verdict
  import opened Execution

  /** The status of a process before its output is looked at. A deadline that passed, the CPU limit, or a kill
      within a tenth of a second of the time limit is a timeout and wins over everything; a kill clearly before
      the limit is blamed on memory; any other non-zero exit is a runtime error. */
  lemma ProcessStatusExactly(spec: RunSpec, p: ProcessEnd)
    ensures var status := RunOneResult(Observe(spec, p)).status;
            var killed := Runs(spec, p) && EndsWith(p.error, 137);
            var late := p.elapsed >= spec.wallTime - 100_000_000;
            var timedOut := p.deadlineExceeded || (killed && late) || EndsWith(p.error, 152);
            && (status == InternalError <==> !Runs(spec, p))
            && (status == TimeExceeded <==> Runs(spec, p) && timedOut)
            && (status == MemoryExceeded <==> killed && !late && !p.deadlineExceeded)
            && (status == RuntimeError <==> Runs(spec, p) && !timedOut && !killed && !EndsWith(p.error, 0))
            && (status == Accepted <==> Runs(spec, p) && !timedOut && EndsWith(p.error, 0))
  {
  }

  /** The sandbox gets as far as running the process. */
  predicate Runs(spec: RunSpec, p: ProcessEnd) {
    spec.nsjailPath != "" && spec.command != "" && !p.error.OtherError?
  }

  /** The process ends with an exit code, where being ended by a signal counts as 128 more than the signal. */
  predicate EndsWith(error: ExecError, code: int) {
    match error
    case NoError => code == 0
    case ExitError(exitCode, None) => code == exitCode
    case ExitError(_, Some(signal)) => code == 128 + signal
    case OtherError(_) => false
  }

  /** A test case is accepted exactly when its process ended by itself with exit code zero, in time, and what
      was captured of its output is what was expected up to line endings and trailing blanks. */
  lemma CaseAcceptedExactly(cfg: Config, lang: Language, jobDir: string, flags: seq<string>, tc: TestCase, p: ProcessEnd)
    ensures RunTestResult(cfg, lang, jobDir, flags, tc, p).status == Accepted
            <==> && cfg.nsjailPath != "" && lang.run.command != "" && EndsWith(p.error, 0) && !p.deadlineExceeded
                 && NormalizeStrict(Captured(cfg.maxOutputBytes, p.stdout)) == NormalizeStrict(tc.expectedOutput)
  {
    ComparisonCharacterized(Captured(cfg.maxOutputBytes, p.stdout), tc.expectedOutput);
  }

  /** Some output that is captured under the cap counts as exact. */
  predicate FitsCap(cap: int, expected: string) {
    cap <= 0 || ShortestMatch(expected) <= cap
  }

  lemma FitsCapExactly(cap: int, expected: string, out: string)
    ensures NormalizeStrict(Kept(cap, out)) == NormalizeStrict(expected) ==> FitsCap(cap, expected)
    ensures FitsCap(cap, expected) ==>
              NormalizeStrict(Kept(cap, Guarded(NormalizeStrict(expected)))) == NormalizeStrict(expected)
  {
    if NormalizeStrict(Kept(cap, out)) == NormalizeStrict(expected) {
      MatchesAreLongEnough(Kept(cap, out), expected);
    }
    ShortestMatchMatches(expected);
  }

  /** A process that prints one text and ends well. */
  function Printing(text: string): ProcessEnd {
    ProcessEnd([text], [], NoError, false, 0, 0)
  }

  lemma PrintingIsCaptured(cap: int, text: string)
    ensures Captured(cap, Printing(text).stdout) == Kept(cap, text)
  {
    assert [text][..0] == [];
    assert Flatten([text]) == text;
  }

  /** A test case can be passed at all exactly when its expected output, up to line endings and trailing
      blanks, can be captured under the output cap. */
  lemma PassableExactly(cfg: Config, lang: Language, jobDir: string, flags: seq<string>, tc: TestCase)
    ensures (exists p :: RunTestResult(cfg, lang, jobDir, flags, tc, p).status == Accepted)
            <==> cfg.nsjailPath != "" && lang.run.command != "" && FitsCap(cfg.maxOutputBytes, tc.expectedOutput)
  {
    var cap, expected := cfg.maxOutputBytes, tc.expectedOutput;
    if p :| RunTestResult(cfg, lang, jobDir, flags, tc, p).status == Accepted {
      CaseAcceptedExactly(cfg, lang, jobDir, flags, tc, p);
      FitsCapExactly(cap, expected, Flatten(p.stdout));
    }
    if cfg.nsjailPath != "" && lang.run.command != "" && FitsCap(cap, expected) {
      var text := Guarded(NormalizeStrict(expected));
      FitsCapExactly(cap, expected, text);
      PrintingIsCaptured(cap, text);
      CaseAcceptedExactly(cfg, lang, jobDir, flags, tc, Printing(text));
      assert RunTestResult(cfg, lang, jobDir, flags, tc, Printing(text)).status == Accepted;
    }
  }

  lemma {:induction false} CaseResultsAt(cfg: Config, lang: Language, w: World, first: nat, flags: seq<string>, cases: seq<TestCase>)
    ensures |CaseResults(cfg, lang, w, first, flags, cases)| == |cases|
    ensures forall i | 0 <= i < |cases| ::
              CaseResults(cfg, lang, w, first, flags, cases)[i]
              == RunTestResult(cfg, lang, w.jobDir, flags, cases[i], w.process(first + i, CaseSpec(cfg, lang, w.jobDir, flags, cases[i])))
    decreases |cases|
  {
    if cases != [] {
      CaseResultsAt(cfg, lang, w, first, flags, cases[..|cases| - 1]);
    }
  }

  lemma {:induction false} CaseSpecsAt(cfg: Config, lang: Language, jobDir: string, flags: seq<string>, cases: seq<TestCase>)
    ensures |CaseSpecs(cfg, lang, jobDir, flags, cases)| == |cases|
    ensures forall i | 0 <= i < |cases| ::
              CaseSpecs(cfg, lang, jobDir, flags, cases)[i] == CaseSpec(cfg, lang, jobDir, flags, cases[i])
    decreases |cases|
  {
    if cases != [] {
      CaseSpecsAt(cfg, lang, jobDir, flags, cases[..|cases| - 1]);
    }
  }

  lemma {:induction false} NotRunAt(n: nat)
    ensures |NotRun(n)| == n && forall i | 0 <= i < n :: NotRun(n)[i] == NOT_EXECUTED
    decreases n
  {
    if n > 0 {
      NotRunAt(n - 1);
    }
  }

  predicate BuildBad(resp: Response) {
    resp.build.Some? && resp.build.value.status == BuildDidFail
  }

  predicate Skipped(resp: Response) {
    exists i | 0 <= i < |resp.tests| :: resp.tests[i].status == NotExecuted
  }

  /** The shape of a response without an error. */
  ghost predicate WellFormed(req: Request, resp: Response) {
    && resp.status == RollupOf(resp)
    && (req.testCases != [] ==> |resp.tests| == |req.testCases|)
    && (req.testCases == [] ==> |resp.tests| == if BuildBad(resp) then 0 else 1)
    && (resp.status == BuildFailed <==> BuildBad(resp))
    && (Skipped(resp) <==> BuildBad(resp) && resp.tests != [])
    && (BuildBad(resp) ==> forall i | 0 <= i < |resp.tests| :: resp.tests[i] == NOT_EXECUTED)
  }

  lemma TestStatuses(cfg: Config, lang: Language, jobDir: string, flags: seq<string>, tc: TestCase, p: ProcessEnd)
    ensures RunTestResult(cfg, lang, jobDir, flags, tc, p).status !in {NotExecuted, BuildFailed}
  {
  }

  lemma CasesAreExecuted(cfg: Config, lang: Language, w: World, first: nat, flags: seq<string>, cases: seq<TestCase>)
    ensures var tests := CaseResults(cfg, lang, w, first, flags, cases);
            |tests| == |cases| && forall i | 0 <= i < |tests| :: tests[i].status !in {NotExecuted, BuildFailed}
  {
    CaseResultsAt(cfg, lang, w, first, flags, cases);
    forall i | 0 <= i < |cases|
      ensures CaseResults(cfg, lang, w, first, flags, cases)[i].status !in {NotExecuted, BuildFailed}
    {
      TestStatuses(cfg, lang, w.jobDir, flags, cases[i], w.process(first + i, CaseSpec(cfg, lang, w.jobDir, flags, cases[i])));
    }
  }

  lemma ExecutedShape(req: Request, resp: Response)
    requires !BuildBad(resp) && resp.status == FirstFailure(resp.tests)
    requires |resp.tests| == if req.testCases == [] then 1 else |req.testCases|
    requires forall i | 0 <= i < |resp.tests| :: resp.tests[i].status !in {NotExecuted, BuildFailed}
    ensures WellFormed(req, resp)
  {
    FirstFailureIsFirst(resp.tests);
  }

  lemma RunCasesShape(cfg: Config, lang: Language, req: Request, w: World, build: Option<BuildPhase>, before: seq<RunSpec>)
    requires build.Some? ==> build.value.status == BuildOk
    ensures WellFormed(req, RunCases(cfg, lang, req, w, build, before).resp)
  {
    CasesAreExecuted(cfg, lang, w, |before|, req.runFlags, req.testCases);
    ExecutedShape(req, RunCases(cfg, lang, req, w, build, before).resp);
  }

  /** Every response without an error: its status is the rollup of its parts, it has one result per test
      case (one on the smoke path), and tests are left out exactly when the build failed. */
  lemma ResponseShape(cfg: Config, reg: Registry, req: Request, w: World)
    requires AdmittedRun(cfg, reg, req, w).err == None
    ensures WellFormed(req, AdmittedRun(cfg, reg, req, w).resp)
  {
    var lang := reg[req.language];
    match lang.build {
      case None => RunCasesShape(cfg, lang, req, w, None, []);
      case Some(phase) =>
        var spec := BuildSpec(cfg, lang, phase, w.jobDir, req.buildFlags);
        var b := BuildResult(Observe(spec, w.process(0, spec)));
        if b.status == BuildOk {
          RunCasesShape(cfg, lang, req, w, Some(b), [spec]);
        } else {
          SkippedShape(req, AdmittedRun(cfg, reg, req, w).resp);
        }
    }
  }

  lemma SkippedShape(req: Request, resp: Response)
    requires BuildBad(resp) && resp.status == BuildFailed && resp.tests == NotRun(|req.testCases|)
    ensures WellFormed(req, resp)
  {
    NotRunAt(|req.testCases|);
    if resp.tests != [] {
      assert resp.tests[0].status == NotExecuted;
    }
  }

  /** A build is good when its process runs, is in time and ends with zero. */
  predicate GoodBuild(spec: RunSpec, p: ProcessEnd) {
    Runs(spec, p) && !p.deadlineExceeded && EndsWith(p.error, 0)
  }

  /** The build process gives an executable, or there is nothing to build. */
  predicate BuildWorks(cfg: Config, lang: Language, w: World, flags: seq<string>) {
    match lang.build
    case None => true
    case Some(phase) =>
      var spec := BuildSpec(cfg, lang, phase, w.jobDir, flags);
      GoodBuild(spec, w.process(0, spec))
  }

  /** The sandbox cannot run the build process at all. */
  predicate BuildBreaks(cfg: Config, lang: Language, w: World, flags: seq<string>) {
    match lang.build
    case None => false
    case Some(phase) =>
      var spec := BuildSpec(cfg, lang, phase, w.jobDir, flags);
      !Runs(spec, w.process(0, spec))
  }

  /** A call ends in an error exactly when a check fails or the build process breaks; otherwise its response
      has a failed build exactly when the build does not work. */
  lemma RunByBuild(cfg: Config, reg: Registry, req: Request, w: World)
    requires Precheck(cfg, reg, req, w) == None
    ensures var r, lang := AdmittedRun(cfg, reg, req, w), reg[req.language];
            && (r.err.Some? <==> BuildBreaks(cfg, lang, w, req.buildFlags))
            && (BuildBreaks(cfg, lang, w, req.buildFlags) ==> !BuildWorks(cfg, lang, w, req.buildFlags))
            && (r.err == None ==> (BuildBad(r.resp) <==> !BuildWorks(cfg, lang, w, req.buildFlags)))
            && (r.resp.build.Some? <==> lang.build.Some?)
  {
  }

  /** Where the results of a run that gets past its build come from. */
  lemma RunResults(cfg: Config, reg: Registry, req: Request, w: World)
    requires req.language in reg && req.testCases != []
    requires AdmittedRun(cfg, reg, req, w).err == None && !BuildBad(AdmittedRun(cfg, reg, req, w).resp)
    ensures var resp, lang := AdmittedRun(cfg, reg, req, w).resp, reg[req.language];
            && resp.tests == CaseResults(cfg, lang, w, BuildCalls(lang), req.runFlags, req.testCases)
            && resp.status == FirstFailure(resp.tests)
  {
  }

  // ----- Limits -----

  function TotalHardTimeout(calls: seq<RunSpec>): int {
    if calls == [] then 0 else TotalHardTimeout(calls[..|calls| - 1]) + HardTimeout(calls[|calls| - 1])
  }

  lemma {:induction false} TotalHardTimeoutBound(calls: seq<RunSpec>, bound: int)
    requires forall i | 0 <= i < |calls| :: HardTimeout(calls[i]) <= bound
    ensures TotalHardTimeout(calls) <= |calls| * bound
    decreases |calls|
  {
    if calls != [] {
      TotalHardTimeoutBound(calls[..|calls| - 1], bound);
      assert |calls| * bound == (|calls| - 1) * bound + bound;
    }
  }

  lemma {:induction false} TotalHardTimeoutConcat(a: seq<RunSpec>, b: seq<RunSpec>)
    ensures TotalHardTimeout(a + b) == TotalHardTimeout(a) + TotalHardTimeout(b)
    decreases |b|
  {
    if b == [] {
      assert a + b == a;
    } else {
      assert (a + b)[..|a + b| - 1] == a + b[..|b| - 1];
      TotalHardTimeoutConcat(a, b[..|b| - 1]);
    }
  }

  /** The number of processes a run starts before its tests. */
  function BuildCalls(lang: Language): nat {
    if lang.build.Some? then 1 else 0
  }

  /** The number of test processes of a run whose build succeeds. */
  function TestRuns(req: Request): nat {
    if req.testCases == [] then 1 else |req.testCases|
  }

  /** What one test process may take by its hard deadline. */
  function RunBound(lang: Language): int {
    lang.run.timeLimitS * 1_000_000_000 + 2_000_000_000
  }

  ghost predicate WithinLimits(lang: Language, runs: seq<RunSpec>) {
    forall i | 0 <= i < |runs| ::
      runs[i].wallTime <= lang.run.timeLimitS * 1_000_000_000 && runs[i].memoryKB <= lang.run.memoryKB
  }

  lemma TestsWithinLimits(cfg: Config, lang: Language, req: Request, w: World, build: Option<BuildPhase>, before: seq<RunSpec>)
    requires OverrideError(lang, req) == None
    ensures var calls := RunCases(cfg, lang, req, w, build, before).calls;
            && before <= calls && WithinLimits(lang, calls[|before|..])
            && |calls| == |before| + TestRuns(req)
  {
    OverridesBoundedExactly(lang, req);
    CaseSpecsAt(cfg, lang, w.jobDir, req.runFlags, req.testCases);
    var calls := RunCases(cfg, lang, req, w, build, before).calls;
    var runs := if req.testCases == [] then [TestSpec(cfg, lang, w.jobDir, req.runFlags, "", req.timeLimitS, req.memoryKB)]
                else CaseSpecs(cfg, lang, w.jobDir, req.runFlags, req.testCases);
    assert calls == before + runs && calls[|before|..] == runs;
  }

  function PositiveOr(n: int, default: int): int {
    if n > 0 then n else default
  }

  /** The processes of a call keep to the limits: the build process has exactly its own, every later one at most
      those of the language. */
  ghost predicate KeepsLimits(lang: Language, calls: seq<RunSpec>)
    requires BuildCalls(lang) <= |calls|
  {
    && WithinLimits(lang, calls[BuildCalls(lang)..])
    && (lang.build.Some? ==> calls[0].wallTime == PositiveOr(lang.build.value.timeLimitS, 30) * 1_000_000_000)
    && (lang.build.Some? ==> calls[0].memoryKB == lang.build.value.memoryKB)
  }

  /** No process of any call gets more time or memory than its language allows. A call that fails its checks
      starts no process, one whose build does not work only the build process. */
  lemma LimitsHold(cfg: Config, reg: Registry, req: Request, w: World)
    ensures AdmittedRun(cfg, reg, req, w).calls == [] <==> Precheck(cfg, reg, req, w).Some?
    ensures Precheck(cfg, reg, req, w) == None ==>
              var lang, calls := reg[req.language], AdmittedRun(cfg, reg, req, w).calls;
              && |calls| == BuildCalls(lang) + (if BuildWorks(cfg, lang, w, req.buildFlags) then TestRuns(req) else 0)
              && KeepsLimits(lang, calls)
  {
    if Precheck(cfg, reg, req, w) == None {
      var lang := reg[req.language];
      match lang.build {
        case None => TestsWithinLimits(cfg, lang, req, w, None, []);
        case Some(phase) =>
          var spec := BuildSpec(cfg, lang, phase, w.jobDir, req.buildFlags);
          var b := BuildResult(Observe(spec, w.process(0, spec)));
          TestsWithinLimits(cfg, lang, req, w, Some(b), [spec]);
      }
    }
  }

  /** What the build process may take by its hard deadline. */
  function BuildBound(lang: Language): int {
    match lang.build
    case None => 0
    case Some(phase) => PositiveOr(phase.timeLimitS, 30) * 1_000_000_000 + 2_000_000_000
  }

  lemma CutOff(lang: Language, calls: seq<RunSpec>)
    requires BuildCalls(lang) <= |calls| && KeepsLimits(lang, calls)
    ensures TotalHardTimeout(calls) <= BuildBound(lang) + (|calls| - BuildCalls(lang)) * RunBound(lang)
  {
    var n := BuildCalls(lang);
    TotalHardTimeoutBound(calls[n..], RunBound(lang));
    TotalHardTimeoutConcat(calls[..n], calls[n..]);
    assert calls == calls[..n] + calls[n..];
    if n == 1 {
      assert calls[..1][..0] == [];
      assert TotalHardTimeout(calls[..1]) == HardTimeout(calls[0]);
    }
  }

  /** The hard deadlines of a call that starts anything add up to a bound that its language and the number of its
      processes fix. */
  lemma CallIsCutOff(cfg: Config, reg: Registry, req: Request, w: World)
    requires AdmittedRun(cfg, reg, req, w).calls != []
    ensures req.language in reg
    ensures var lang, calls := reg[req.language], AdmittedRun(cfg, reg, req, w).calls;
            && BuildCalls(lang) <= |calls| <= BuildCalls(lang) + TestRuns(req)
            && TotalHardTimeout(calls) <= BuildBound(lang) + (|calls| - BuildCalls(lang)) * RunBound(lang)
  {
    LimitsHold(cfg, reg, req, w);
    CutOff(reg[req.language], AdmittedRun(cfg, reg, req, w).calls);
  }

  /** With at least one test case the request's own limits decide only whether it is accepted at all:
      any two values that pass give the same run, process for process. */
  lemma RequestLimitsIgnored(cfg: Config, reg: Registry, req: Request, w: World, timeLimitS: int, memoryKB: int)
    requires req.testCases != [] && req.language in reg
    requires Precheck(cfg, reg, req, w) == None
    ensures var other := req.(timeLimitS := timeLimitS, memoryKB := memoryKB);
            && (Precheck(cfg, reg, other, w) == None <==> Fits(timeLimitS, memoryKB, reg[req.language].run))
            && (Precheck(cfg, reg, other, w) == None ==> AdmittedRun(cfg, reg, other, w) == AdmittedRun(cfg, reg, req, w))
  {
    var lang := reg[req.language];
    var other := req.(timeLimitS := timeLimitS, memoryKB := memoryKB);
    OverridesBoundedExactly(lang, req);
    OverridesBoundedExactly(lang, other);
  }

  /** Without test cases the request's limits are those of the one smoke run: of two requests that differ in nothing
      else and pass the checks, both start the same processes exactly when the build keeps either from a smoke run
      or the limits come to the same. */
  lemma SmokeLimitsExactly(cfg: Config, reg: Registry, req: Request, w: World, timeLimitS: int, memoryKB: int)
    requires req.testCases == [] && req.language in reg
    requires Precheck(cfg, reg, req, w) == None && Fits(timeLimitS, memoryKB, reg[req.language].run)
    ensures var other, lang := req.(timeLimitS := timeLimitS, memoryKB := memoryKB), reg[req.language];
            AdmittedRun(cfg, reg, other, w).calls == AdmittedRun(cfg, reg, req, w).calls
            <==> || !BuildWorks(cfg, lang, w, req.buildFlags)
                 || (&& PositiveOr(timeLimitS, lang.run.timeLimitS) == PositiveOr(req.timeLimitS, lang.run.timeLimitS)
                     && PositiveOr(memoryKB, lang.run.memoryKB) == PositiveOr(req.memoryKB, lang.run.memoryKB))
  {
    var other, lang := req.(timeLimitS := timeLimitS, memoryKB := memoryKB), reg[req.language];
    OverridesBoundedExactly(lang, req);
    OverridesBoundedExactly(lang, other);
    assert Precheck(cfg, reg, other, w) == None;
    SmokeCalls(cfg, reg, req, w);
    SmokeCalls(cfg, reg, other, w);
  }

  lemma SmokeCalls(cfg: Config, reg: Registry, req: Request, w: World)
    requires req.testCases == [] && Precheck(cfg, reg, req, w) == None
    ensures var lang := reg[req.language];
            BuildWorks(cfg, lang, w, req.buildFlags) ==>
              var calls := AdmittedRun(cfg, reg, req, w).calls;
              && |calls| == BuildCalls(lang) + 1
              && calls[BuildCalls(lang)] == TestSpec(cfg, lang, w.jobDir, req.runFlags, "", req.timeLimitS, req.memoryKB)
              && (lang.build.Some? ==> calls[0] == BuildSpec(cfg, lang, lang.build.value, w.jobDir, req.buildFlags))
    ensures var lang := reg[req.language];
            !BuildWorks(cfg, lang, w, req.buildFlags) ==>
              lang.build.Some?
              && AdmittedRun(cfg, reg, req, w).calls == [BuildSpec(cfg, lang, lang.build.value, w.jobDir, req.buildFlags)]
  {
  }

  // ----- Command lines -----

  ghost predicate PlainTemplate(template: seq<string>) {
    forall i | 0 <= i < |template| :: PlainEntry(template[i])
  }

  ghost predicate PlainEntry(entry: string) {
    exists pieces :: RenderArgs.PlainLiterals(pieces) && entry == RenderArgs.Written(pieces)
  }

  /** A command line that keeps the template's arguments apart, has no placeholder left in them, and ends
      with the user's flags. */
  predicate CleanCommandLine(args: seq<string>, template: seq<string>, flags: seq<string>) {
    && |args| == |template| + |flags|
    && args[|template|..] == flags
    && forall i | 0 <= i < |template| :: RenderArgs.BraceFree(args[i])
  }

  lemma RenderedCleanly(template: seq<string>, lang: Language, flags: seq<string>)
    requires PlainTemplate(template)
    requires IsSafeName(lang.sourceFile) && (lang.artifact == "" || IsSafeName(lang.artifact))
    ensures CleanCommandLine(RenderArgs.RenderAll(template, lang, flags), template, flags)
  {
    forall i | 0 <= i < |template|
      ensures RenderArgs.BraceFree(RenderArgs.RenderEntry(template[i], lang.sourceFile, lang.artifact))
    {
      assert PlainEntry(template[i]);
      var pieces :| RenderArgs.PlainLiterals(pieces) && template[i] == RenderArgs.Written(pieces);
      RenderArgs.TemplatesMeanWhatTheySay(pieces, lang.sourceFile, lang.artifact);
    }
  }

  /** The name checks made before a run are enough for every command line it starts. */
  lemma CommandLinesAreClean(cfg: Config, reg: Registry, req: Request, w: World)
    requires req.language in reg && PlainTemplate(reg[req.language].run.args)
    requires reg[req.language].build.Some? ==> PlainTemplate(reg[req.language].build.value.args)
    ensures var lang, calls := reg[req.language], AdmittedRun(cfg, reg, req, w).calls;
            && (lang.build.Some? && calls != [] ==> CleanCommandLine(calls[0].args, lang.build.value.args, req.buildFlags))
            && forall i | BuildCalls(lang) <= i < |calls| :: CleanCommandLine(calls[i].args, lang.run.args, req.runFlags)
  {
    var lang := reg[req.language];
    if Precheck(cfg, reg, req, w) == None {
      RenderedCleanly(lang.run.args, lang, req.runFlags);
      if lang.build.Some? {
        RenderedCleanly(lang.build.value.args, lang, req.buildFlags);
      }
      CaseSpecsAt(cfg, lang, w.jobDir, req.runFlags, req.testCases);
    }
  }
}
