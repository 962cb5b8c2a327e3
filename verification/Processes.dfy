/** What every process of a call is given, and what its end means for the response. */
module ProcessFacts {
  import opened Types
  import opened GoStrings
  import opened OutputCompare
  import RenderArgs
  import opened OutputCapture
  import opened Sandbox
  import opened Verdict
  import opened Execution
  import opened ExecutionFacts

  // ----- What a process is given -----

  /** One argument per template entry with the file names put in, then the user's flags. */
  predicate IsCommandLine(args: seq<string>, template: seq<string>, lang: Language, flags: seq<string>) {
    && |args| == |template| + |flags| && args[|template|..] == flags
    && forall i | 0 <= i < |template| :: args[i] == RenderArgs.RenderEntry(template[i], lang.sourceFile, lang.artifact)
  }

  /** What all processes of a call have in common. */
  predicate InJail(spec: RunSpec, cfg: Config, jobDir: string) {
    && spec.nsjailPath == cfg.nsjailPath && spec.cwd == jobDir && spec.maxOutput == cfg.maxOutputBytes
    && spec.uid == cfg.jailUID && spec.gid == cfg.jailGID
  }

  /** A test process: the language's run command on the given input, with its own limits where they are positive and
      the language's where they are not. */
  predicate IsTestRun(spec: RunSpec, cfg: Config, lang: Language, jobDir: string, flags: seq<string>, stdin: string,
                      timeLimitS: int, memoryKB: int) {
    && InJail(spec, cfg, jobDir) && spec.command == lang.run.command && spec.stdin == stdin
    && IsCommandLine(spec.args, lang.run.args, lang, flags)
    && spec.wallTime == (if timeLimitS > 0 then timeLimitS else lang.run.timeLimitS) * 1_000_000_000
    && spec.memoryKB == (if memoryKB > 0 then memoryKB else lang.run.memoryKB)
    && spec.maxProcesses == lang.run.maxProcesses
  }

  /** The build process: the language's build command on no input, with the build's limits. */
  predicate IsBuildRun(spec: RunSpec, cfg: Config, lang: Language, phase: Phase, jobDir: string, flags: seq<string>) {
    && InJail(spec, cfg, jobDir) && spec.command == phase.command && spec.stdin == ""
    && IsCommandLine(spec.args, phase.args, lang, flags)
    && spec.wallTime == (if phase.timeLimitS > 0 then phase.timeLimitS else 30) * 1_000_000_000
    && spec.memoryKB == phase.memoryKB && spec.maxProcesses == phase.maxProcesses
  }

  lemma TestSpecIsTestRun(cfg: Config, lang: Language, jobDir: string, flags: seq<string>, stdin: string,
                          timeLimitS: int, memoryKB: int)
    ensures IsTestRun(TestSpec(cfg, lang, jobDir, flags, stdin, timeLimitS, memoryKB),
                      cfg, lang, jobDir, flags, stdin, timeLimitS, memoryKB)
  {
  }

  lemma BuildSpecIsBuildRun(cfg: Config, lang: Language, phase: Phase, jobDir: string, flags: seq<string>)
    ensures IsBuildRun(BuildSpec(cfg, lang, phase, jobDir, flags), cfg, lang, phase, jobDir, flags)
  {
  }

  /** The processes that a call with a working build starts: the build if there is one, then one test process for
      each case, in order, on the case's input and with the case's limits; without cases one on no input with
      the request's limits. */
  lemma CallsExactly(cfg: Config, reg: Registry, req: Request, w: World)
    requires Precheck(cfg, reg, req, w) == None && BuildWorks(cfg, reg[req.language], w, req.buildFlags)
    ensures var lang, calls := reg[req.language], AdmittedRun(cfg, reg, req, w).calls;
            var n := if lang.build.Some? then 1 else 0;
            && |calls| == n + (if req.testCases == [] then 1 else |req.testCases|)
            && (forall i | 0 <= i < |req.testCases| ::
                  var tc := req.testCases[i];
                  IsTestRun(calls[n + i], cfg, lang, w.jobDir, req.runFlags, tc.input, tc.timeLimitS, tc.memoryKB))
            && (req.testCases == [] ==>
                  IsTestRun(calls[n], cfg, lang, w.jobDir, req.runFlags, "", req.timeLimitS, req.memoryKB))
  {
    var lang := reg[req.language];
    TestSpecIsTestRun(cfg, lang, w.jobDir, req.runFlags, "", req.timeLimitS, req.memoryKB);
    CaseSpecsAt(cfg, lang, w.jobDir, req.runFlags, req.testCases);
    forall i | 0 <= i < |req.testCases|
      ensures var tc := req.testCases[i];
              IsTestRun(CaseSpec(cfg, lang, w.jobDir, req.runFlags, tc),
                        cfg, lang, w.jobDir, req.runFlags, tc.input, tc.timeLimitS, tc.memoryKB)
    {
      var tc := req.testCases[i];
      TestSpecIsTestRun(cfg, lang, w.jobDir, req.runFlags, tc.input, tc.timeLimitS, tc.memoryKB);
    }
  }

  // ----- What the sandbox makes of a process -----

  /** Output that does not fit, or an empty write to a buffer that is exactly full. */
  ghost predicate Overflows(cap: int, chunks: seq<string>) {
    cap > 0 && (|Flatten(chunks)| > cap || EmptyChunkWhenFull(cap, chunks))
  }

  /** The sandbox's result, field by field; without a jail, a command or a wait status there is none. */
  lemma SandboxResultExactly(spec: RunSpec, p: ProcessEnd)
    ensures match Observe(spec, p)
            case Broken(_) => !Runs(spec, p)
            case Finished(r) =>
              && Runs(spec, p) && EndsWith(p.error, r.exitCode) && r.duration == p.elapsed && r.maxRSSKB == p.maxRSSKB
              && (r.signal.Some? <==> p.error.ExitError? && p.error.signal.Some?) && (r.signal.Some? ==> r.signal == p.error.signal)
              && r.stdout == Captured(spec.maxOutput, p.stdout) && r.stderr == Captured(spec.maxOutput, p.stderr)
              && (r.outputCapped <==> Overflows(spec.maxOutput, p.stdout) || Overflows(spec.maxOutput, p.stderr))
              && (r.oomKilled <==> EndsWith(p.error, 137) && p.elapsed < spec.wallTime - 100_000_000)
              && (r.timedOut
                  <==> || p.deadlineExceeded || EndsWith(p.error, 152)
                       || (EndsWith(p.error, 137) && p.elapsed >= spec.wallTime - 100_000_000))
  {
    if spec.maxOutput > 0 {
      CappedExactly(spec.maxOutput, p.stdout);
      CappedExactly(spec.maxOutput, p.stderr);
    }
  }

  // ----- What the build process means -----

  /** The report on the build phase, field by field. */
  lemma BuildReportExactly(spec: RunSpec, p: ProcessEnd)
    ensures var b := BuildResult(Observe(spec, p));
            && (b.status == BuildOk <==> GoodBuild(spec, p))
            && (b.status == BuildBroken <==> !Runs(spec, p))
            && (Runs(spec, p) ==>
                  && b.stdout == Captured(spec.maxOutput, p.stdout) && b.stderr == Captured(spec.maxOutput, p.stderr)
                  && b.durationMS == Milliseconds(p.elapsed))
            && (!Runs(spec, p) ==> b.stdout == "" && b.stderr != "" && b.durationMS == 0)
  {
  }

  /** What a call with a build phase makes of its build process: an error if the sandbox cannot run it, a failed
      build with every test left out if it does not end well, and the tests otherwise. */
  lemma BuildDecides(cfg: Config, reg: Registry, req: Request, w: World)
    requires Precheck(cfg, reg, req, w) == None && reg[req.language].build.Some?
    ensures var lang, r := reg[req.language], AdmittedRun(cfg, reg, req, w);
            && r.calls != [] && IsBuildRun(r.calls[0], cfg, lang, lang.build.value, w.jobDir, req.buildFlags)
            && var p := w.process(0, r.calls[0]);
            && (r.err.Some? <==> !Runs(r.calls[0], p))
            && (r.err.Some? ==> r.err.value.SandboxFailed? && r.resp.status == InternalError && r.resp.tests == [])
            && (r.err == None ==> (r.resp.status == BuildFailed <==> p.deadlineExceeded || !EndsWith(p.error, 0)))
            && (r.resp.status == BuildFailed ==>
                  && |r.calls| == 1 && |r.resp.tests| == |req.testCases|
                  && forall i | 0 <= i < |r.resp.tests| :: r.resp.tests[i] == TestResult(NotExecuted, "", "", 0, None, 0, 0))
            && r.resp.build.Some?
            && (r.err == None ==>
                  && r.resp.build.value.stdout == Captured(cfg.maxOutputBytes, p.stdout)
                  && r.resp.build.value.stderr == Captured(cfg.maxOutputBytes, p.stderr)
                  && r.resp.build.value.durationMS == Milliseconds(p.elapsed))
  {
    var lang, r := reg[req.language], AdmittedRun(cfg, reg, req, w);
    var spec := BuildSpec(cfg, lang, lang.build.value, w.jobDir, req.buildFlags);
    BuildSpecIsBuildRun(cfg, lang, lang.build.value, w.jobDir, req.buildFlags);
    BuildReportExactly(spec, w.process(0, spec));
    NotRunAt(|req.testCases|);
    assert r.calls[0] == spec;
    if r.err == None {
      ResponseShape(cfg, reg, req, w);
    }
  }

  // ----- What a test process means -----

  /** A call without test cases has one result, that of its one test process. */
  lemma SmokeResultExactly(cfg: Config, reg: Registry, req: Request, w: World)
    requires Precheck(cfg, reg, req, w) == None && BuildWorks(cfg, reg[req.language], w, req.buildFlags)
    requires req.testCases == []
    ensures var n, r := if reg[req.language].build.Some? then 1 else 0, AdmittedRun(cfg, reg, req, w);
            && |r.calls| == n + 1
            && r.resp.tests == [RunOneResult(Observe(r.calls[n], w.process(n, r.calls[n])))]
            && r.resp.status == r.resp.tests[0].status
  {
    var tests := AdmittedRun(cfg, reg, req, w).resp.tests;
    assert tests[1..] == [] && FirstFailure(tests) == tests[0].status;
  }

  /** The status of a test case: its process decides, and if that ended well its captured output. */
  lemma TestStatusExactly(cfg: Config, lang: Language, jobDir: string, flags: seq<string>, tc: TestCase, p: ProcessEnd)
    ensures var status := RunTestResult(cfg, lang, jobDir, flags, tc, p).status;
            var alone := RunOneResult(Observe(CaseSpec(cfg, lang, jobDir, flags, tc), p)).status;
            var out := Captured(cfg.maxOutputBytes, p.stdout);
            && (alone != Accepted ==> status == alone)
            && (alone == Accepted ==>
                  && (status == Accepted <==> NormalizeStrict(out) == NormalizeStrict(tc.expectedOutput))
                  && (status == WrongOutput <==> Fields(out) != Fields(tc.expectedOutput))
                  && (status == WhitespaceMismatch
                      <==> && Fields(out) == Fields(tc.expectedOutput)
                           && NormalizeStrict(out) != NormalizeStrict(tc.expectedOutput)))
  {
    ComparisonCharacterized(Captured(cfg.maxOutputBytes, p.stdout), tc.expectedOutput);
  }

  /** The other fields of a test result. */
  lemma TestReportExactly(cfg: Config, lang: Language, jobDir: string, flags: seq<string>, tc: TestCase, p: ProcessEnd)
    ensures var tr := RunTestResult(cfg, lang, jobDir, flags, tc, p);
            if cfg.nsjailPath != "" && lang.run.command != "" && !p.error.OtherError? then
              && tr.stdout == Captured(cfg.maxOutputBytes, p.stdout) && tr.stderr == Captured(cfg.maxOutputBytes, p.stderr)
              && EndsWith(p.error, tr.exitCode) && tr.durationMS == Milliseconds(p.elapsed) && tr.memoryKB == p.maxRSSKB
              && tr.signal == if p.error.ExitError? then p.error.signal else None
            else tr.stdout == "" && tr.stderr != "" && tr.exitCode == tr.durationMS == tr.memoryKB == 0 && tr.signal == None
  {
  }

  /** What is captured of an output: its beginning, up to the cap if there is one. */
  lemma CapturedExactly(cap: int, chunks: seq<string>)
    ensures Captured(cap, chunks) <= Flatten(chunks)
    ensures |Captured(cap, chunks)| == if 0 < cap < |Flatten(chunks)| then cap else |Flatten(chunks)|
  {
    KeptExactly(cap, Flatten(chunks));
  }
}
