/** The queue worker: a job becomes a request, the response is relabelled with its test cases, and the
    outcome is written to the job's hash before the message is deleted. */
module QueueWorker {
  import opened Types
  import opened Submission
  import opened Execution
  import opened JobHash

  // ----- From job to request -----

  datatype Built = Ready(req: Request) | Refused(text: Message)

  /** Rounding to the nearest integer, halves away from zero. */
  function Round(x: real): int {
    if x >= 0.0 then (x + 0.5).Floor else -((-x + 0.5).Floor)
  }

  lemma RoundIsNearest(x: real)
    ensures -0.5 <= Round(x) as real - x <= 0.5
    ensures x >= 0.0 ==> -0.5 < Round(x) as real - x
    ensures Round(-x) == -Round(x)
  {
    var y := (if x >= 0.0 then x else -x) + 0.5;
    assert y.Floor as real <= y < y.Floor as real + 1.0;
  }

  function RequestOf(job: Job, cases: seq<TestCase>): Request {
    Request(job.language, job.sourceCode, [], [], cases,
            match job.timeLimitSeconds case Some(t) => Round(t) case None => 0,
            match job.memoryLimitKb case Some(m) => m case None => 0)
  }

  /** One test case per map entry, in the order given. */
  function CasesInOrder(m: map<string, string>, order: seq<string>): seq<TestCase>
    requires forall i | 0 <= i < |order| :: order[i] in m
  {
    seq(|order|, i requires 0 <= i < |order| => TestCase(order[i], m[order[i]], 0, 0))
  }

  /** An iteration order of a map: every key exactly once. */
  ghost predicate IsOrder(order: seq<string>, m: map<string, string>) {
    && (forall i | 0 <= i < |order| :: order[i] in m)
    && (forall k | k in m :: k in order)
    && (forall i, j | 0 <= i < j < |order| :: order[i] != order[j])
  }

  function BuildRequest(job: Job, order: seq<string>): Built
    requires forall i | 0 <= i < |order| :: order[i] in job.testCases
  {
    if job.sourceCode == "" then Refused("sourceCode is empty")
    else if job.language == "" then Refused("language is empty")
    else if job.kind == "run" then Ready(RequestOf(job, [TestCase(job.stdin, "", 0, 0)]))
    else if job.kind == "submit" then Ready(RequestOf(job, CasesInOrder(job.testCases, order)))
    else Refused("unknown job type")
  }

  /** Which jobs are refused, and what the request of any other carries: source and language as they are, no flags,
      limits that are zero where the job has none, and the cases of its kind. */
  lemma RequestExactly(job: Job, order: seq<string>)
    requires IsOrder(order, job.testCases)
    ensures BuildRequest(job, order).Refused?
            <==> job.sourceCode == "" || job.language == "" || (job.kind != "run" && job.kind != "submit")
    ensures match BuildRequest(job, order)
            case Refused(_) => true
            case Ready(req) =>
              && req.language == job.language && req.source == job.sourceCode && req.buildFlags == req.runFlags == []
              && (match job.timeLimitSeconds
                  case None => req.timeLimitS == 0
                  case Some(t) => -0.5 <= req.timeLimitS as real - t <= 0.5)
              && req.memoryKB == (if job.memoryLimitKb.Some? then job.memoryLimitKb.value else 0)
              && (job.kind == "run" ==> req.testCases == [TestCase(job.stdin, "", 0, 0)])
              && (job.kind == "submit" ==>
                    && |req.testCases| == |order|
                    && forall i | 0 <= i < |order| :: req.testCases[i] == TestCase(order[i], job.testCases[order[i]], 0, 0))
  {
    if job.timeLimitSeconds.Some? {
      RoundIsNearest(job.timeLimitSeconds.value);
    }
  }

  /** `built` is what the job gives for some order of walking its map. */
  ghost predicate BuiltInSomeOrder(job: Job, built: Built) {
    exists order :: IsOrder(order, job.testCases) && built == BuildRequest(job, order)
  }

  /** The map is walked in an order nobody controls. */
  method MakeRequest(job: Job) returns (built: Built)
    ensures BuiltInSomeOrder(job, built)
  {
    ghost var order := SomeOrder(job.testCases);
    if job.sourceCode == "" {
      return Refused("sourceCode is empty");
    }
    if job.language == "" {
      return Refused("language is empty");
    }
    if job.kind == "run" {
      return Ready(RequestOf(job, [TestCase(job.stdin, "", 0, 0)]));
    }
    if job.kind != "submit" {
      return Refused("unknown job type");
    }
    var cases := WalkCases(job.testCases);
    built := Ready(RequestOf(job, cases));
  }

  method WalkCases(m: map<string, string>) returns (cases: seq<TestCase>)
    ensures exists order :: IsOrder(order, m) && cases == CasesInOrder(m, order)
  {
    cases := [];
    ghost var order := [];
    var todo := m.Keys;
    while todo != {}
      invariant todo <= m.Keys
      invariant forall i | 0 <= i < |order| :: order[i] in m && order[i] !in todo
      invariant forall k | k in m :: k in todo || k in order
      invariant forall i, j | 0 <= i < j < |order| :: order[i] != order[j]
      invariant cases == CasesInOrder(m, order)
      decreases |todo|
    {
      var input :| input in todo;
      cases := cases + [TestCase(input, m[input], 0, 0)];
      order := order + [input];
      todo := todo - {input};
    }
    assert IsOrder(order, m);
  }

  lemma {:induction false} OrderOf(keys: set<string>) returns (order: seq<string>)
    ensures forall i | 0 <= i < |order| :: order[i] in keys
    ensures forall k | k in keys :: k in order
    ensures forall i, j | 0 <= i < j < |order| :: order[i] != order[j]
    decreases |keys|
  {
    order := [];
    if keys != {} {
      var k :| k in keys;
      var rest := OrderOf(keys - {k});
      order := [k] + rest;
    }
  }

  lemma SomeOrder(m: map<string, string>) returns (order: seq<string>)
    ensures IsOrder(order, m)
  {
    order := OrderOf(m.Keys);
  }

  // ----- Playground runs -----

  function LenientTest(t: TestResult): TestResult {
    t.(status := Lenient(t.status))
  }

  function LenientTests(tests: seq<TestResult>): seq<TestResult> {
    seq(|tests|, i requires 0 <= i < |tests| => LenientTest(tests[i]))
  }

  /** Output verdicts are taken back, on the tests and on the response, each for itself. */
  function Downgrade(resp: Response): Response {
    Response(Lenient(resp.status), resp.build, LenientTests(resp.tests))
  }

  method DowngradeTests(tests: array<TestResult>)
    modifies tests
    ensures tests[..] == LenientTests(old(tests[..]))
  {
    for i := 0 to tests.Length
      invariant forall j | 0 <= j < i :: tests[j] == old(LenientTest(tests[j]))
      invariant forall j | i <= j < tests.Length :: tests[j] == old(tests[j])
    {
      if tests[i].status == WrongOutput || tests[i].status == WhitespaceMismatch {
        tests[i] := tests[i].(status := Accepted);
      }
    }
  }

  method DowngradeResponse(resp: Response) returns (out: Response)
    ensures out == Downgrade(resp)
  {
    var tests := new TestResult[|resp.tests|](i requires 0 <= i < |resp.tests| => resp.tests[i]);
    assert tests[..] == resp.tests;
    DowngradeTests(tests);
    var status := resp.status;
    if status == WrongOutput || status == WhitespaceMismatch {
      status := Accepted;
    }
    out := Response(status, resp.build, tests[..]);
  }

  // ----- Labelling -----

  function LabelledTests(req: Request, tests: seq<TestResult>): seq<LabelledTest>
    requires |tests| <= |req.testCases|
  {
    seq(|tests|, i requires 0 <= i < |tests| =>
      LabelledTest(tests[i], req.testCases[i].input, req.testCases[i].expectedOutput))
  }

  /** The response with each result's test case beside it; indexing past the test cases panics. */
  function ResponseToMap(req: Request, resp: Response): Option<LabelledResponse> {
    if |resp.tests| > |req.testCases| then None
    else Some(LabelledResponse(resp.status, resp.build, LabelledTests(req, resp.tests)))
  }

  method Label(req: Request, resp: Response) returns (out: Option<LabelledResponse>)
    ensures out == ResponseToMap(req, resp)
  {
    var tests: seq<LabelledTest> := [];
    for i := 0 to |resp.tests|
      invariant i <= |req.testCases|
      invariant tests == LabelledTests(req, resp.tests[..i])
    {
      if i >= |req.testCases| {
        return None;
      }
      tests := tests + [LabelledTest(resp.tests[i], req.testCases[i].input, req.testCases[i].expectedOutput)];
    }
    assert resp.tests[..|resp.tests|] == resp.tests;
    out := Some(LabelledResponse(resp.status, resp.build, tests));
  }

  // ----- Handling a message -----

  /** What the handler reports for a built request, or nothing when relabelling panics. */
  function ReportOf(kind: string, req: Request, r: RunResult): Option<Report> {
    match r.err
    case Some(e) => Some(Errored(ErrorText(e)))
    case None =>
      var resp := if kind == "run" then Downgrade(r.resp) else r.resp;
      match ResponseToMap(req, resp)
      case None => None
      case Some(m) => Some(Succeeded(resp.status == TimeExceeded, m))
  }

  /** What a run's report says: an error if there was one, nothing if there are more results than cases, and
      otherwise TIMEOUT just for a run that exceeded its time, with the response's results beside their cases, output
      verdicts taken back for a playground run. */
  lemma ReportExactly(jobId: string, kind: string, req: Request, r: RunResult, now: int)
    ensures match ReportOf(kind, req, r)
            case None => r.err == None && |r.resp.tests| > |req.testCases|
            case Some(report) =>
              var fields := FieldsOf(jobId, report, now);
              && StatusField in fields && (ErrorField in fields <==> r.err.Some?) && (ResultField in fields <==> r.err == None)
              && fields[StatusField]
                 == StatusValue(if r.err.Some? then Error else if r.resp.status == TimeExceeded then Timeout else Done)
              && (r.err.Some? ==> fields[ErrorField] == Text(ErrorText(r.err.value)))
              && (r.err == None ==> fields[ResultField].Encoded? && Shows(fields[ResultField].result, kind, req, r.resp))
  {
    if r.err == None {
      var report := ReportOf(kind, req, r);
      assert report.Some? ==> ResultField in FieldsOf(jobId, report.value, now);
    }
  }

  predicate OutputVerdict(s: Status) {
    s == WrongOutput || s == WhitespaceMismatch
  }

  /** The status as it is shown: accepted in the place of an output verdict of a playground run. */
  function Shown(kind: string, s: Status): Status {
    if kind == "run" && OutputVerdict(s) then Accepted else s
  }

  /** `m` shows the response: its build, its status, and its results one by one, each beside its case. */
  predicate Shows(m: LabelledResponse, kind: string, req: Request, resp: Response) {
    && m.build == resp.build && m.status == Shown(kind, resp.status)
    && |m.tests| == |resp.tests| <= |req.testCases|
    && forall i | 0 <= i < |m.tests| ::
         && m.tests[i].stdin == req.testCases[i].input && m.tests[i].expectedOutput == req.testCases[i].expectedOutput
         && m.tests[i].result == resp.tests[i].(status := Shown(kind, resp.tests[i].status))
  }

  /** The executor's answer, given whether it has a free slot. */
  function ExecutorAnswer(free: bool, cfg: Config, reg: Registry, req: Request, w: World): RunResult {
    if free then AdmittedRun(cfg, reg, req, w) else Failed(Overloaded)
  }

  function JobOutcome(job: Job, order: seq<string>, free: bool, cfg: Config, reg: Registry, w: World): Option<Report>
    requires forall i | 0 <= i < |order| :: order[i] in job.testCases
  {
    match BuildRequest(job, order)
    case Refused(text) => Some(Errored(text))
    case Ready(req) => ReportOf(job.kind, req, ExecutorAnswer(free, cfg, reg, req, w))
  }

  datatype Body = Missing | Garbled | Parsed(job: Job)

  datatype Delivery = Delivery(body: Body, receipt: Option<nat>)

  /** Which of the handler's effects reach the outside, and when its two writes happen. */
  datatype Luck = Luck(markApplied: bool, reportApplied: bool, deleteOk: bool, markTime: int, reportTime: int)

  function Key(jobId: string): string {
    "job:" + jobId
  }

  /** The hash after a handler's writes. */
  function AfterWrites(hash: Hash, jobId: string, report: Option<Report>, luck: Luck): Hash {
    var marked := if luck.markApplied then hash + FieldsOf(jobId, Started, luck.markTime) else hash;
    if report.Some? && luck.reportApplied then marked + FieldsOf(jobId, report.value, luck.reportTime) else marked
  }

  class Worker {
    const exec: Executor
    /** All job hashes, by key. */
    var redis: map<string, Hash>
    /** The receipts of messages still in the queue. */
    var queue: set<nat>

    constructor (exec: Executor, redis: map<string, Hash>, queue: set<nat>)
      ensures this.exec == exec && this.redis == redis && this.queue == queue
    {
      this.exec, this.redis, this.queue := exec, redis, queue;
    }

    /** One merging write; a lost one changes nothing. */
    method WriteRedis(jobId: string, status: JobStatus, result: Option<LabelledResponse>, errorText: string, now: int, applied: bool)
      modifies this`redis
      ensures WroteFields(old(redis), redis, jobId, StatusFields(jobId, status, result, errorText, now), applied)
      ensures forall id | id != jobId :: HashAt(redis, "job:" + id) == HashAt(old(redis), "job:" + id)
    {
      var fields := AssembleFields(jobId, status, result, errorText, now);
      if applied {
        redis := redis[Key(jobId) := HashAt(redis, Key(jobId)) + fields];
      }
      forall id | id != jobId ensures HashAt(redis, "job:" + id) == HashAt(old(redis), "job:" + id) {
        OtherJobsKept(old(redis), redis, jobId, id);
      }
    }

    method DeleteMessage(d: Delivery, ok: bool)
      modifies this`queue
      ensures queue == if d.receipt.Some? && ok then old(queue) - {d.receipt.value} else old(queue)
    {
      if d.receipt == None {
        return;
      }
      if ok {
        queue := queue - {d.receipt.value};
      }
    }

    /** Handles one delivery. The job's hash ends up with the handler's writes merged in, no other hash changes,
        and the message is deleted whatever was reported, unless relabelling panicked first. */
    method HandleMessage(d: Delivery, luck: Luck, w: World) returns (panicked: bool, ghost order: seq<string>)
      requires exec.Valid()
      modifies this`redis, this`queue, exec`sem, exec.stats, exec.stats.ring
      ensures exec.Valid() && exec.sem == old(exec.sem)
      ensures !d.body.Parsed? ==> redis == old(redis) && !panicked
      ensures d.body.Parsed? ==>
                var job := d.body.job;
                && IsOrder(order, job.testCases)
                && var report := JobOutcome(job, order, old(exec.sem) < exec.Capacity(), exec.cfg, exec.reg, w);
                && (panicked <==> report == None)
                && Handled(old(redis), redis, job.jobId, report, luck)
                && forall id | id != job.jobId :: HashAt(redis, "job:" + id) == HashAt(old(redis), "job:" + id)
      ensures queue == if d.receipt.Some? && luck.deleteOk && !panicked then old(queue) - {d.receipt.value} else old(queue)
    {
      panicked, order := false, [];
      if !d.body.Parsed? {
        DeleteMessage(d, luck.deleteOk);
        return;
      }
      var job := d.body.job;
      WriteRedis(job.jobId, Running, None, "", luck.markTime, luck.markApplied);
      ghost var marked := redis;
      var built := MakeRequest(job);
      order :| IsOrder(order, job.testCases) && built == BuildRequest(job, order);
      if built.Refused? {
        WriteRedis(job.jobId, Error, None, built.text, luck.reportTime, luck.reportApplied);
      } else {
        panicked := RunJob(job, built.req, luck, w);
      }
      ghost var report := JobOutcome(job, order, old(exec.sem) < exec.Capacity(), exec.cfg, exec.reg, w);
      WritesCompose(old(redis), marked, redis, job.jobId, report, luck);
      forall id | id != job.jobId ensures HashAt(redis, "job:" + id) == HashAt(old(redis), "job:" + id) {
        OtherJobsKept(old(redis), redis, job.jobId, id);
      }
      if panicked {
        return;
      }
      DeleteMessage(d, luck.deleteOk);
    }

    /** Runs a job's request and writes what came of it. */
    method RunJob(job: Job, req: Request, luck: Luck, w: World) returns (panicked: bool)
      requires exec.Valid()
      modifies this`redis, exec`sem, exec.stats, exec.stats.ring
      ensures exec.Valid() && exec.sem == old(exec.sem)
      ensures var r := ExecutorAnswer(old(exec.sem) < exec.Capacity(), exec.cfg, exec.reg, req, w);
              Reported(old(redis), redis, job.jobId, ReportOf(job.kind, req, r), luck, panicked)
    {
      var resp, err, calls := exec.Run(req, w);
      panicked := ReportRun(job, req, RunResult(resp, err, calls), luck);
    }

    /** Writes the outcome of a run, unless relabelling its results panics. */
    method ReportRun(job: Job, req: Request, r: RunResult, luck: Luck) returns (panicked: bool)
      modifies this`redis
      ensures Reported(old(redis), redis, job.jobId, ReportOf(job.kind, req, r), luck, panicked)
    {
      panicked := false;
      if r.err.Some? {
        WriteRedis(job.jobId, Error, None, ErrorText(r.err.value), luck.reportTime, luck.reportApplied);
        return;
      }
      var resp := r.resp;
      if job.kind == "run" {
        resp := DowngradeResponse(resp);
      }
      var redisStatus := Done;
      if resp.status == TimeExceeded {
        redisStatus := Timeout;
      }
      var m := Label(req, resp);
      if m == None {
        return true;
      }
      WriteRedis(job.jobId, redisStatus, m, "", luck.reportTime, luck.reportApplied);
    }
  }

  /** `after` is `before` with the fields merged into the job's hash, or unchanged if the write was lost. */
  ghost predicate WroteFields(before: map<string, Hash>, after: map<string, Hash>, jobId: string, fields: Hash, applied: bool) {
    && HashAt(after, "job:" + jobId)
       == (if applied then HashAt(before, "job:" + jobId) + fields else HashAt(before, "job:" + jobId))
    && OthersKept(before, after, jobId)
  }

  /** Every other key keeps its hash. */
  ghost predicate OthersKept(before: map<string, Hash>, after: map<string, Hash>, jobId: string) {
    forall k | k != "job:" + jobId :: HashAt(after, k) == HashAt(before, k)
  }

  /** Jobs do not share a hash. */
  lemma OtherJobsKept(before: map<string, Hash>, after: map<string, Hash>, jobId: string, other: string)
    requires OthersKept(before, after, jobId) && other != jobId
    ensures HashAt(after, "job:" + other) == HashAt(before, "job:" + other)
  {
    assert ("job:" + other)[4..] == other && ("job:" + jobId)[4..] == jobId;
  }

  /** The write that a report calls for. */
  ghost predicate Wrote(before: map<string, Hash>, after: map<string, Hash>, jobId: string, report: Report, now: int, applied: bool) {
    WroteFields(before, after, jobId, FieldsOf(jobId, report, now), applied)
  }

  /** `after` is `before` with everything merged in that a handler wrote. */
  ghost predicate Handled(before: map<string, Hash>, after: map<string, Hash>, jobId: string, report: Option<Report>, luck: Luck) {
    && HashAt(after, "job:" + jobId) == AfterWrites(HashAt(before, "job:" + jobId), jobId, report, luck)
    && OthersKept(before, after, jobId)
  }

  /** What polls find after a delivery was handled: its own job's with the handler's writes, every other job's
      as before. */
  lemma PollsAfterHandling(before: map<string, Hash>, after: map<string, Hash>, jobId: string, report: Option<Report>,
                           luck: Luck, polled: string)
    requires Handled(before, after, jobId, report, luck)
    ensures ViewOf(HashAt(after, "job:" + polled))
            == if polled == jobId then ViewOf(AfterWrites(HashAt(before, "job:" + jobId), jobId, report, luck))
               else ViewOf(HashAt(before, "job:" + polled))
  {
    if polled != jobId {
      OtherJobsKept(before, after, jobId, polled);
    }
  }

  /** `after` is `before` with the report written; a handler that panics has nothing to write. */
  ghost predicate Reported(before: map<string, Hash>, after: map<string, Hash>, jobId: string, report: Option<Report>,
                           luck: Luck, panicked: bool) {
    && (panicked <==> report == None)
    && match report
       case None => after == before
       case Some(r) => Wrote(before, after, jobId, r, luck.reportTime, luck.reportApplied)
  }

  /** A handler's two writes one after the other; a panicked one leaves it at the first. */
  lemma WritesCompose(before: map<string, Hash>, marked: map<string, Hash>, after: map<string, Hash>, jobId: string,
                      report: Option<Report>, luck: Luck)
    requires Wrote(before, marked, jobId, Started, luck.markTime, luck.markApplied)
    requires Reported(marked, after, jobId, report, luck, report == None)
    ensures Handled(before, after, jobId, report, luck)
  {
  }
}
