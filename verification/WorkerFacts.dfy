/** What the queue worker guarantees about one handled job. */
module WorkerFacts {
  import opened Types
  import opened Submission
  import opened Verdict
  import opened Execution
  import opened ExecutionFacts
  import opened JobHash
  import opened QueueWorker
  import opened Sandbox
  import Lifecycle

  // ----- Panics -----

  /** A well-formed job to be judged without any test case. */
  predicate NothingToLabel(job: Job) {
    job.sourceCode != "" && job.language != "" && job.kind == "submit" && job.testCases == map[]
  }

  /** Relabelling indexes past the test cases exactly for a judged job without test cases that is admitted,
      passes every check and builds: the executor answers it with one smoke result. */
  lemma PanicExactly(job: Job, order: seq<string>, free: bool, cfg: Config, reg: Registry, w: World)
    requires IsOrder(order, job.testCases)
    ensures JobOutcome(job, order, free, cfg, reg, w) == None
            <==> && NothingToLabel(job)
                 && free && Precheck(cfg, reg, RequestOf(job, []), w) == None
                 && BuildWorks(cfg, reg[job.language], w, [])
  {
    match BuildRequest(job, order) {
      case Refused(_) =>
      case Ready(req) =>
        var r := ExecutorAnswer(free, cfg, reg, req, w);
        if r.err == None {
          ResponseShape(cfg, reg, req, w);
        }
        if job.kind == "submit" {
          EmptyOrder(order, job.testCases);
        }
        if Precheck(cfg, reg, req, w) == None {
          RunByBuild(cfg, reg, req, w);
        }
    }
  }

  ghost predicate NeverPanics(job: Job) {
    forall order, free, cfg, reg, w | IsOrder(order, job.testCases) :: JobOutcome(job, order, free, cfg, reg, w).Some?
  }

  /** Which jobs can make the worker panic at all can be told from the job alone. */
  lemma NeverPanicsExactly(job: Job)
    ensures NeverPanics(job) <==> !NothingToLabel(job)
  {
    if NothingToLabel(job) {
      var cfg, reg, w := Welcoming(job);
      assert IsOrder([], job.testCases);
      PanicExactly(job, [], true, cfg, reg, w);
      assert JobOutcome(job, [], true, cfg, reg, w) == None;
    } else {
      forall order, free, cfg, reg, w | IsOrder(order, job.testCases)
        ensures JobOutcome(job, order, free, cfg, reg, w).Some?
      {
        PanicExactly(job, order, free, cfg, reg, w);
      }
    }
  }

  /** A configuration, registry and environment in which the job passes every check and needs no build. */
  lemma Welcoming(job: Job) returns (cfg: Config, reg: Registry, w: World)
    ensures Precheck(cfg, reg, RequestOf(job, []), w) == None && BuildWorks(cfg, reg[job.language], w, [])
  {
    var req := RequestOf(job, []);
    var lang := Language("main", "", None, Phase("run", [], [], req.timeLimitS, req.memoryKB, 1));
    cfg := Config(1, 0, |job.sourceCode|, 0, 0, "nsjail", 0, 0);
    reg := map[job.language := lang];
    w := World("", None, (k, spec) => ProcessEnd([], [], NoError, false, 0, 0), 0);
    PrecheckExactly(cfg, reg, req, w);
  }

  lemma EmptyOrder(order: seq<string>, m: map<string, string>)
    requires IsOrder(order, m)
    ensures order == [] <==> m == map[]
    ensures order == [] ==> CasesInOrder(m, order) == []
  {
    if order == [] {
      assert m.Keys == {};
    } else {
      assert order[0] in m;
    }
  }

  /** Jobs of the submission front end always have a test case, so they never make the worker panic. */
  lemma SubmittedJobsNeverPanic(job: Job, items: seq<CaseItem>, order: seq<string>, free: bool, cfg: Config, reg: Registry, w: World)
    requires items != [] && job.testCases == Collapse(items) && IsOrder(order, job.testCases)
    ensures JobOutcome(job, order, free, cfg, reg, w).Some?
  {
    var last := CollapseIsLastWins(items, 0);
    PanicExactly(job, order, free, cfg, reg, w);
  }

  /** A call turned away for lack of a slot is reported as an error like any other; nothing is kept for a retry. */
  lemma OverloadIsReported(job: Job, order: seq<string>, cfg: Config, reg: Registry, w: World)
    requires IsOrder(order, job.testCases)
    ensures var report := JobOutcome(job, order, false, cfg, reg, w);
            report.Some? && report.value.Errored?
  {
    PanicExactly(job, order, false, cfg, reg, w);
  }

  // ----- Limits of a job -----

  /** The time and memory limits of a job decide only whether it is refused: two jobs that differ in nothing
      else, and whose limits both pass, have the same outcome. */
  lemma JobLimitsOnlyAdmit(job: Job, timeLimit: Option<real>, memoryLimit: Option<int>, order: seq<string>, free: bool,
                           cfg: Config, reg: Registry, w: World)
    requires IsOrder(order, job.testCases) && (job.kind == "submit" ==> job.testCases != map[])
    requires job.language in reg
    ensures var other := job.(timeLimitSeconds := timeLimit, memoryLimitKb := memoryLimit);
            var run := reg[job.language].run;
            LimitsFit(job, run) && LimitsFit(other, run) ==>
              JobOutcome(other, order, free, cfg, reg, w) == JobOutcome(job, order, free, cfg, reg, w)
  {
    var other := job.(timeLimitSeconds := timeLimit, memoryLimitKb := memoryLimit);
    EmptyOrder(order, job.testCases);
    match BuildRequest(job, order) {
      case Refused(_) =>
      case Ready(req) =>
        var req2 := RequestOf(other, req.testCases);
        assert BuildRequest(other, order) == Ready(req2);
        assert req2 == req.(timeLimitS := req2.timeLimitS, memoryKB := req2.memoryKB);
        SameRun(cfg, reg, req, w, req2.timeLimitS, req2.memoryKB);
    }
  }

  predicate LimitsFit(job: Job, phase: Phase) {
    var req := RequestOf(job, []);
    Fits(req.timeLimitS, req.memoryKB, phase)
  }

  lemma SameRun(cfg: Config, reg: Registry, req: Request, w: World, timeLimitS: int, memoryKB: int)
    requires req.testCases != [] && req.language in reg
    ensures var other := req.(timeLimitS := timeLimitS, memoryKB := memoryKB);
            var run := reg[req.language].run;
            Fits(req.timeLimitS, req.memoryKB, run) && Fits(timeLimitS, memoryKB, run) ==>
              AdmittedRun(cfg, reg, other, w) == AdmittedRun(cfg, reg, req, w)
  {
    if Precheck(cfg, reg, req, w) == None {
      RequestLimitsIgnored(cfg, reg, req, w, timeLimitS, memoryKB);
    }
  }

  // ----- Playground runs -----

  /** Downgrading tests and status separately gives a status that is the rollup of the downgraded tests
      exactly when a first failure in output is not followed by a failure of another kind. */
  lemma DowngradeCommutesExactly(resp: Response)
    requires resp.status == RollupOf(resp)
    ensures Downgrade(resp).status == RollupOf(Downgrade(resp))
            <==> (OutputVerdict(resp.status) ==>
                    forall i | 0 <= i < |resp.tests| :: resp.tests[i].status == Accepted || OutputVerdict(resp.tests[i].status))
  {
    LenientFirstFailure(resp.tests);
    FirstFailureIsFirst(LenientTests(resp.tests));
    forall i | 0 <= i < |resp.tests|
      ensures LenientTests(resp.tests)[i].status == Accepted
              <==> resp.tests[i].status == Accepted || OutputVerdict(resp.tests[i].status)
    {
    }
  }

  /** One test is the case in which nothing can go wrong. */
  lemma SingleTestDowngrades(resp: Response)
    requires resp.status == RollupOf(resp) && |resp.tests| == 1
    requires BuildBad(resp) ==> resp.tests[0].status == NotExecuted
    ensures var d := Downgrade(resp);
            && d.status == RollupOf(d) && !OutputVerdict(d.status)
            && d.tests == [LenientTest(resp.tests[0])] && !OutputVerdict(d.tests[0].status)
  {
    if !BuildBad(resp) {
      assert FirstFailure(resp.tests[1..]) == Accepted;
      DowngradeCommutesExactly(resp);
    }
  }

  lemma {:induction false} LenientFirstFailure(tests: seq<TestResult>)
    ensures !OutputVerdict(FirstFailure(tests)) ==> FirstFailure(LenientTests(tests)) == FirstFailure(tests)
    decreases |tests|
  {
    if tests != [] {
      assert LenientTests(tests)[1..] == LenientTests(tests[1..]);
      LenientFirstFailure(tests[1..]);
    }
  }

  /** Judging against some expected output and then taking output verdicts back is not judging at all. */
  lemma LenientUndoesJudging(out: Sandbox.Outcome, expected: string)
    ensures LenientTest(Judge(RunOneResult(out), expected)) == RunOneResult(out)
  {
  }

  /** A playground job has one test on the job's input, its status is the rollup of its tests and never an
      output verdict, and it is the status the smoke path gives for the same process. */
  lemma PlaygroundMatchesSmoke(job: Job, order: seq<string>, cfg: Config, reg: Registry, w: World)
    requires IsOrder(order, job.testCases) && job.kind == "run" && job.sourceCode != "" && job.language != ""
    requires AdmittedRun(cfg, reg, RequestOf(job, [TestCase(job.stdin, "", 0, 0)]), w).err == None
    ensures var report := JobOutcome(job, order, true, cfg, reg, w);
            && report.Some? && report.value.Succeeded?
            && var m := report.value.result;
            && |m.tests| == 1 && m.tests[0].stdin == job.stdin
            && !OutputVerdict(m.status) && !OutputVerdict(m.tests[0].result.status)
            && m.status == RollupOf(Response(m.status, m.build, [m.tests[0].result]))
            && (m.status != BuildFailed ==>
                  var lang := reg[job.language];
                  var spec := TestSpec(cfg, lang, w.jobDir, [], job.stdin, 0, 0);
                  && m.tests[0].result == LenientTest(RunOneResult(Sandbox.Observe(spec, w.process(BuildCalls(lang), spec))))
                  && (job.stdin == "" ==> m.tests[0].result == SmokeResult(cfg, lang, w, BuildCalls(lang), Unlimited(job))))
  {
    var req := RequestOf(job, [TestCase(job.stdin, "", 0, 0)]);
    var r := AdmittedRun(cfg, reg, req, w);
    ResponseShape(cfg, reg, req, w);
    SingleTestDowngrades(r.resp);
    assert BuildRequest(job, order) == Ready(req);
    var m := JobOutcome(job, order, true, cfg, reg, w).value.result;
    assert m.tests == [LabelledTest(LenientTest(r.resp.tests[0]), job.stdin, "")];
    if !BuildBad(r.resp) {
      SingleResult(job, cfg, reg, w);
    }
  }

  /** The job as a request without test cases and without limits of its own. */
  function Unlimited(job: Job): Request {
    RequestOf(job, []).(timeLimitS := 0, memoryKB := 0)
  }

  lemma SingleResult(job: Job, cfg: Config, reg: Registry, w: World)
    requires var r := AdmittedRun(cfg, reg, RequestOf(job, [TestCase(job.stdin, "", 0, 0)]), w);
             r.err == None && !BuildBad(r.resp)
    ensures var r := AdmittedRun(cfg, reg, RequestOf(job, [TestCase(job.stdin, "", 0, 0)]), w);
            var lang := reg[job.language];
            var spec := TestSpec(cfg, lang, w.jobDir, [], job.stdin, 0, 0);
            |r.resp.tests| == 1
            && LenientTest(r.resp.tests[0]) == LenientTest(RunOneResult(Sandbox.Observe(spec, w.process(BuildCalls(lang), spec))))
  {
    var cases := [TestCase(job.stdin, "", 0, 0)];
    var lang := reg[job.language];
    CaseResultsAt(cfg, lang, w, BuildCalls(lang), [], cases);
    var spec := CaseSpec(cfg, lang, w.jobDir, [], cases[0]);
    LenientUndoesJudging(Sandbox.Observe(spec, w.process(BuildCalls(lang), spec)), "");
  }

  // ----- The handler as a run of the protocol -----

  /** What a handler writes and deletes, given what it has to report. */
  lemma ReportIsARun(jobId: string, report: Option<Report>, luck: Luck, steps: seq<Lifecycle.Step>, s: Lifecycle.State, h: nat)
    returns (more: seq<Lifecycle.Step>, t: Lifecycle.State)
    requires Lifecycle.Leads(jobId, Lifecycle.INIT, steps, s) && h !in s.handlers && report != Some(Started)
    ensures Lifecycle.Leads(jobId, Lifecycle.INIT, more, t) && t.hash == AfterWrites(s.hash, jobId, report, luck)
    ensures t.deleted == (s.deleted || (report.Some? && luck.deleteOk))
    ensures t.handlers.Keys == s.handlers.Keys + {h} && !Lifecycle.Live(t.handlers[h])
  {
    match report
    case None =>
      more, t := Lifecycle.CrashOnce(jobId, steps, s, h, luck.markApplied, luck.markTime);
    case Some(r) =>
      more, t := Lifecycle.HandleOnce(jobId, steps, s, h, luck.markApplied, luck.markTime,
                                      r, luck.reportApplied, luck.reportTime, luck.deleteOk);
  }

  /** A handler's effect on the hash and on the message is that of a run of the job protocol with one more
      delivery: mark, report, delete, or a crash where relabelling panics. */
  lemma HandlerIsARun(job: Job, order: seq<string>, free: bool, cfg: Config, reg: Registry, w: World, luck: Luck,
                      steps: seq<Lifecycle.Step>, s: Lifecycle.State, h: nat)
    returns (more: seq<Lifecycle.Step>, t: Lifecycle.State)
    requires IsOrder(order, job.testCases)
    requires Lifecycle.Leads(job.jobId, Lifecycle.INIT, steps, s) && h !in s.handlers
    ensures var report := JobOutcome(job, order, free, cfg, reg, w);
            && Lifecycle.Leads(job.jobId, Lifecycle.INIT, more, t)
            && t.hash == AfterWrites(s.hash, job.jobId, report, luck)
            && t.deleted == (s.deleted || (report.Some? && luck.deleteOk))
            && t.handlers.Keys == s.handlers.Keys + {h} && !Lifecycle.Live(t.handlers[h])
  {
    more, t := ReportIsARun(job.jobId, JobOutcome(job, order, free, cfg, reg, w), luck, steps, s, h);
  }
}
