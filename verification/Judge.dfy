/** The judging pipeline from the submitted list of cases to the labelled results and the verdict. */
module Judging {
  import opened Types
  import opened OutputCompare
  import opened Submission
  import opened OutputCapture
  import opened Sandbox
  import opened Verdict
  import opened Execution
  import opened ExecutionFacts
  import opened JobHash
  import opened QueueWorker
  import opened WorkerFacts

  /** The test case a map entry becomes. */
  function EntryCase(m: map<string, string>, key: string): TestCase
    requires key in m
  {
    TestCase(key, m[key], 0, 0)
  }

  /** The result of a map entry's test case when it is the `k`-th process of the call. */
  function EntryResult(cfg: Config, lang: Language, w: World, m: map<string, string>, key: string, k: nat): TestResult
    requires key in m
  {
    var spec := CaseSpec(cfg, lang, w.jobDir, [], EntryCase(m, key));
    RunTestResult(cfg, lang, w.jobDir, [], EntryCase(m, key), w.process(k, spec))
  }

  /** The run behind a judged job whose map is walked in the given order. */
  function RunOf(job: Job, order: seq<string>, cfg: Config, reg: Registry, w: World): RunResult
    requires forall i | 0 <= i < |order| :: order[i] in job.testCases
  {
    AdmittedRun(cfg, reg, RequestOf(job, CasesInOrder(job.testCases, order)), w)
  }

  /** A judged job with test cases that ran without error and was relabelled as `m`. */
  ghost predicate Judged(job: Job, order: seq<string>, cfg: Config, reg: Registry, w: World, m: LabelledResponse) {
    && job.kind == "submit" && job.sourceCode != "" && job.language != ""
    && IsOrder(order, job.testCases) && job.testCases != map[]
    && RunOf(job, order, cfg, reg, w).err == None
    && ResponseToMap(RequestOf(job, CasesInOrder(job.testCases, order)), RunOf(job, order, cfg, reg, w).resp) == Some(m)
  }

  /** Being judged is having a result to report. */
  lemma JudgedIsReported(job: Job, order: seq<string>, cfg: Config, reg: Registry, w: World, m: LabelledResponse)
    requires job.kind == "submit" && IsOrder(order, job.testCases) && job.testCases != map[]
    ensures Judged(job, order, cfg, reg, w, m)
            <==> JobOutcome(job, order, true, cfg, reg, w) == Some(Succeeded(m.status == TimeExceeded, m))
  {
  }

  lemma JudgedRun(job: Job, order: seq<string>, cfg: Config, reg: Registry, w: World, m: LabelledResponse)
    requires Judged(job, order, cfg, reg, w, m)
    ensures var req, r := RequestOf(job, CasesInOrder(job.testCases, order)), RunOf(job, order, cfg, reg, w);
            && job.language in reg && order != [] && req.testCases != []
            && r.err == None && WellFormed(req, r.resp) && |r.resp.tests| == |order|
            && m == LabelledResponse(r.resp.status, r.resp.build, LabelledTests(req, r.resp.tests))
  {
    var req := RequestOf(job, CasesInOrder(job.testCases, order));
    EmptyOrder(order, job.testCases);
    ResponseShape(cfg, reg, req, w);
  }

  /** Results stay with their test cases: position by position the labelled response has the input of the
      iteration order and its expectation from the map. */
  lemma LabelsStayWithCases(job: Job, order: seq<string>, cfg: Config, reg: Registry, w: World, m: LabelledResponse)
    requires Judged(job, order, cfg, reg, w, m)
    ensures |m.tests| == |order|
    ensures forall i | 0 <= i < |order| :: m.tests[i].stdin == order[i] && m.tests[i].expectedOutput == job.testCases[order[i]]
    ensures m.status == BuildFailed ==> forall i | 0 <= i < |order| :: m.tests[i].result == NOT_EXECUTED
  {
    JudgedRun(job, order, cfg, reg, w, m);
  }

  /** `results[i]` is what running the entry of `order[i]` as the process number `first + i` gives. */
  ghost predicate RunInOrder(m: map<string, string>, order: seq<string>, results: seq<TestResult>, first: nat,
                             cfg: Config, lang: Language, w: World)
    requires forall i | 0 <= i < |order| :: order[i] in m
  {
    && |results| == |order|
    && forall i | 0 <= i < |order| :: results[i] == EntryResult(cfg, lang, w, m, order[i], first + i)
  }

  lemma LabelledResultsAt(m: map<string, string>, order: seq<string>, req: Request, tests: seq<TestResult>,
                          cfg: Config, lang: Language, w: World, first: nat)
    requires (forall i | 0 <= i < |order| :: order[i] in m) && req.testCases == CasesInOrder(m, order)
    requires tests == CaseResults(cfg, lang, w, first, [], req.testCases)
    ensures |tests| == |order| && Results(LabelledTests(req, tests)) == tests
    ensures RunInOrder(m, order, tests, first, cfg, lang, w)
  {
    CaseResultsAt(cfg, lang, w, first, [], req.testCases);
    forall i | 0 <= i < |order| ensures tests[i] == EntryResult(cfg, lang, w, m, order[i], first + i) {
      assert req.testCases[i] == EntryCase(m, order[i]);
    }
  }

  /** The result at each position is the one of running exactly the case it is labelled with, and the verdict
      is the first failure among them. */
  lemma ResultsStayWithCases(job: Job, order: seq<string>, cfg: Config, reg: Registry, w: World, m: LabelledResponse)
    requires Judged(job, order, cfg, reg, w, m)
    ensures job.language in reg
    ensures m.status != BuildFailed ==>
              RunInOrder(job.testCases, order, Results(m.tests), BuildCalls(reg[job.language]), cfg, reg[job.language], w)
    ensures m.status != BuildFailed ==> m.status == FirstFailure(Results(m.tests))
  {
    JudgedRun(job, order, cfg, reg, w, m);
    if m.status != BuildFailed {
      var req := RequestOf(job, CasesInOrder(job.testCases, order));
      var lang := reg[job.language];
      RunResults(cfg, reg, req, w);
      LabelledResultsAt(job.testCases, order, req, RunOf(job, order, cfg, reg, w).resp.tests, cfg, lang, w, BuildCalls(lang));
    }
  }

  function Results(tests: seq<LabelledTest>): seq<TestResult> {
    seq(|tests|, i requires 0 <= i < |tests| => tests[i].result)
  }

  // ----- Every case once, whatever the order -----

  function Pairs(tests: seq<LabelledTest>): seq<(string, string)> {
    seq(|tests|, i requires 0 <= i < |tests| => (tests[i].stdin, tests[i].expectedOutput))
  }

  lemma {:induction false} DistinctSeqIsSet<T>(s: seq<T>, elements: set<T>)
    requires forall i, j | 0 <= i < j < |s| :: s[i] != s[j]
    requires forall x :: x in elements <==> x in s
    ensures multiset(s) == multiset(elements)
    decreases |s|
  {
    if s == [] {
      assert elements == {};
    } else {
      assert s == [s[0]] + s[1..];
      assert s[0] !in s[1..];
      DistinctSeqIsSet(s[1..], elements - {s[0]});
      assert elements == (elements - {s[0]}) + {s[0]};
    }
  }

  lemma PairsAreItems(m: map<string, string>, order: seq<string>, pairs: seq<(string, string)>)
    requires IsOrder(order, m) && |pairs| == |order|
    requires forall i | 0 <= i < |order| :: pairs[i] == (order[i], m[order[i]])
    ensures multiset(pairs) == multiset(m.Items)
  {
    forall x: (string, string) ensures x in m.Items <==> x in pairs {
      if x in m.Items {
        assert x.0 in order;
        var i :| 0 <= i < |order| && order[i] == x.0;
        assert pairs[i] == x;
      }
    }
    forall i, j | 0 <= i < j < |pairs| ensures pairs[i] != pairs[j] {
      assert pairs[i].0 == order[i] && pairs[j].0 == order[j];
    }
    DistinctSeqIsSet(pairs, m.Items);
  }

  /** Whatever order the map is walked in, the labelled results carry every (input, expectation) pair of the
      map, each exactly once. */
  lemma LabelsAreTheMap(job: Job, order: seq<string>, cfg: Config, reg: Registry, w: World, m: LabelledResponse)
    requires Judged(job, order, cfg, reg, w, m)
    ensures multiset(Pairs(m.tests)) == multiset(job.testCases.Items)
  {
    LabelsStayWithCases(job, order, cfg, reg, w, m);
    PairsAreItems(job.testCases, order, Pairs(m.tests));
  }

  /** How a process ends depends on what it is given, not on when it runs. */
  ghost predicate Deterministic(w: World) {
    forall j, k, spec :: w.process(j, spec) == w.process(k, spec)
  }

  /** The weaker form that verdicts need: a program given the same input exits the same way, in time or not,
      and prints the same; how long it takes and how much memory it uses may vary. */
  ghost predicate Repeatable(w: World) {
    forall j, k, spec :: SameBehaviour(w.process(j, spec), w.process(k, spec))
  }

  predicate SameBehaviour(p: ProcessEnd, q: ProcessEnd) {
    Flatten(p.stdout) == Flatten(q.stdout) && p.error == q.error && p.deadlineExceeded == q.deadlineExceeded
  }

  lemma AcceptanceRepeats(cfg: Config, lang: Language, w: World, m: map<string, string>, key: string, k: nat)
    requires Repeatable(w) && key in m
    ensures EntryResult(cfg, lang, w, m, key, k).status == Accepted <==> EntryResult(cfg, lang, w, m, key, 0).status == Accepted
  {
    var tc := EntryCase(m, key);
    var spec := CaseSpec(cfg, lang, w.jobDir, [], tc);
    assert SameBehaviour(w.process(k, spec), w.process(0, spec));
    CaseAcceptedExactly(cfg, lang, w.jobDir, [], tc, w.process(k, spec));
    CaseAcceptedExactly(cfg, lang, w.jobDir, [], tc, w.process(0, spec));
  }

  /** The labelled result of a map entry under a deterministic sandbox, or of one that is skipped. */
  function EntryLabel(cfg: Config, lang: Language, w: World, m: map<string, string>, key: string, skipped: bool): LabelledTest
    requires key in m
  {
    LabelledTest(if skipped then NOT_EXECUTED else EntryResult(cfg, lang, w, m, key, 0), key, m[key])
  }

  function EntryLabels(cfg: Config, lang: Language, w: World, m: map<string, string>, order: seq<string>, skipped: bool): seq<LabelledTest>
    requires forall i | 0 <= i < |order| :: order[i] in m
  {
    seq(|order|, i requires 0 <= i < |order| => EntryLabel(cfg, lang, w, m, order[i], skipped))
  }

  ghost function LabelSet(cfg: Config, lang: Language, w: World, m: map<string, string>, skipped: bool): set<LabelledTest> {
    set key | key in m :: EntryLabel(cfg, lang, w, m, key, skipped)
  }

  /** The labels of a walk are the labels of the map's entries, each once. */
  lemma LabelsAsSet(cfg: Config, lang: Language, w: World, m: map<string, string>, order: seq<string>, skipped: bool)
    requires IsOrder(order, m)
    ensures multiset(EntryLabels(cfg, lang, w, m, order, skipped)) == multiset(LabelSet(cfg, lang, w, m, skipped))
  {
    var labels, all := EntryLabels(cfg, lang, w, m, order, skipped), LabelSet(cfg, lang, w, m, skipped);
    forall i, j | 0 <= i < j < |labels| ensures labels[i] != labels[j] {
      assert labels[i].stdin == order[i] && labels[j].stdin == order[j];
    }
    forall x ensures x in all <==> x in labels {
      if x in all {
        var key :| key in m && x == EntryLabel(cfg, lang, w, m, key, skipped);
        assert key in order;
        var i :| 0 <= i < |order| && order[i] == key;
        assert labels[i] == x;
      }
      if x in labels {
        var i :| 0 <= i < |labels| && labels[i] == x;
        assert order[i] in m && x == EntryLabel(cfg, lang, w, m, order[i], skipped);
      }
    }
    DistinctSeqIsSet(labels, all);
  }

  /** Whether the build fails does not depend on the walk. */
  lemma BuildFailsAlike(job: Job, order: seq<string>, cfg: Config, reg: Registry, w: World, m: LabelledResponse)
    requires Judged(job, order, cfg, reg, w, m)
    ensures job.language in reg
    ensures m.status == BuildFailed <==> !BuildWorks(cfg, reg[job.language], w, [])
  {
    JudgedRun(job, order, cfg, reg, w, m);
    RunByBuild(cfg, reg, RequestOf(job, CasesInOrder(job.testCases, order)), w);
  }

  /** Under a deterministic sandbox two walks of the map give the same labelled results up to order. */
  lemma WalkOrderOnlyPermutes(job: Job, a: seq<string>, b: seq<string>, cfg: Config, reg: Registry, w: World,
                              ma: LabelledResponse, mb: LabelledResponse)
    requires Judged(job, a, cfg, reg, w, ma) && Judged(job, b, cfg, reg, w, mb) && Deterministic(w)
    ensures multiset(ma.tests) == multiset(mb.tests)
    ensures ma.status == Accepted <==> mb.status == Accepted
    ensures ma.status == BuildFailed <==> mb.status == BuildFailed
  {
    BuildFailsAlike(job, a, cfg, reg, w, ma);
    BuildFailsAlike(job, b, cfg, reg, w, mb);
    LabelsOfWalk(job, a, cfg, reg, w, ma);
    LabelsOfWalk(job, b, cfg, reg, w, mb);
    LabelsAsSet(cfg, reg[job.language], w, job.testCases, a, ma.status == BuildFailed);
    LabelsAsSet(cfg, reg[job.language], w, job.testCases, b, ma.status == BuildFailed);
    AcceptedMeansEveryEntry(job, a, cfg, reg, w, ma);
    AcceptedMeansEveryEntry(job, b, cfg, reg, w, mb);
  }

  lemma LabelsOfWalk(job: Job, order: seq<string>, cfg: Config, reg: Registry, w: World, m: LabelledResponse)
    requires Judged(job, order, cfg, reg, w, m) && Deterministic(w)
    ensures job.language in reg
    ensures m.tests == EntryLabels(cfg, reg[job.language], w, job.testCases, order, m.status == BuildFailed)
  {
    BuildFailsAlike(job, order, cfg, reg, w, m);
    LabelsStayWithCases(job, order, cfg, reg, w, m);
    var lang := reg[job.language];
    if m.status == BuildFailed {
      SkippedLabels(job.testCases, order, m.tests, cfg, lang, w);
    } else {
      ResultsStayWithCases(job, order, cfg, reg, w, m);
      ExecutedLabels(job.testCases, order, m.tests, BuildCalls(lang), cfg, lang, w);
    }
  }

  /** `tests` carry the labels of the walk. */
  ghost predicate LabelledAlong(m: map<string, string>, order: seq<string>, tests: seq<LabelledTest>)
    requires forall i | 0 <= i < |order| :: order[i] in m
  {
    && |tests| == |order|
    && forall i | 0 <= i < |order| :: tests[i].stdin == order[i] && tests[i].expectedOutput == m[order[i]]
  }

  lemma SkippedLabels(m: map<string, string>, order: seq<string>, tests: seq<LabelledTest>, cfg: Config, lang: Language, w: World)
    requires (forall i | 0 <= i < |order| :: order[i] in m) && LabelledAlong(m, order, tests)
    requires forall i | 0 <= i < |order| :: tests[i].result == NOT_EXECUTED
    ensures tests == EntryLabels(cfg, lang, w, m, order, true)
  {
  }

  lemma ExecutedLabels(m: map<string, string>, order: seq<string>, tests: seq<LabelledTest>, first: nat,
                       cfg: Config, lang: Language, w: World)
    requires (forall i | 0 <= i < |order| :: order[i] in m) && LabelledAlong(m, order, tests)
    requires RunInOrder(m, order, Results(tests), first, cfg, lang, w) && Deterministic(w)
    ensures tests == EntryLabels(cfg, lang, w, m, order, false)
  {
    forall i: nat | i < |order| ensures tests[i] == EntryLabel(cfg, lang, w, m, order[i], false) {
      assert Results(tests)[i] == tests[i].result;
      EntryResultRepeats(m, order[i], first + i, cfg, lang, w);
    }
  }

  lemma EntryResultRepeats(m: map<string, string>, key: string, k: nat, cfg: Config, lang: Language, w: World)
    requires key in m && Deterministic(w)
    ensures EntryResult(cfg, lang, w, m, key, k) == EntryResult(cfg, lang, w, m, key, 0)
  {
    var spec := CaseSpec(cfg, lang, w.jobDir, [], EntryCase(m, key));
    assert w.process(k, spec) == w.process(0, spec);
  }

  ghost function PassingKeys(m: map<string, string>, cfg: Config, lang: Language, w: World): set<string> {
    set key | key in m && EntryResult(cfg, lang, w, m, key, 0).status == Accepted
  }

  /** A walk visits every key, so its results are all accepted exactly when every key passes. */
  lemma WalkVisitsAll(m: map<string, string>, order: seq<string>, results: seq<TestResult>, passing: set<string>)
    requires IsOrder(order, m) && |results| == |order| && passing <= m.Keys
    requires forall i | 0 <= i < |order| :: results[i].status == Accepted <==> order[i] in passing
    ensures FirstFailure(results) == Accepted <==> passing == m.Keys
  {
    FirstFailureIsFirst(results);
    if AllAccepted(results) {
      forall key | key in m ensures key in passing {
        assert key in order;
      }
    }
  }

  lemma PassesAnywhere(m: map<string, string>, key: string, k: nat, cfg: Config, lang: Language, w: World)
    requires key in m && Repeatable(w)
    ensures EntryResult(cfg, lang, w, m, key, k).status == Accepted <==> key in PassingKeys(m, cfg, lang, w)
  {
    AcceptanceRepeats(cfg, lang, w, m, key, k);
  }

  lemma WalkVerdict(m: map<string, string>, order: seq<string>, results: seq<TestResult>, first: nat,
                    cfg: Config, lang: Language, w: World)
    requires IsOrder(order, m) && Repeatable(w) && RunInOrder(m, order, results, first, cfg, lang, w)
    ensures FirstFailure(results) == Accepted <==> PassingKeys(m, cfg, lang, w) == m.Keys
  {
    var passing := PassingKeys(m, cfg, lang, w);
    forall i: nat | i < |order| ensures results[i].status == Accepted <==> order[i] in passing {
      PassesAnywhere(m, order[i], first + i, cfg, lang, w);
    }
    WalkVisitsAll(m, order, results, passing);
  }

  lemma AcceptedMeansEveryEntry(job: Job, order: seq<string>, cfg: Config, reg: Registry, w: World, m: LabelledResponse)
    requires Judged(job, order, cfg, reg, w, m) && Repeatable(w)
    ensures job.language in reg
    ensures m.status == Accepted
            <==> && BuildWorks(cfg, reg[job.language], w, [])
                 && PassingKeys(job.testCases, cfg, reg[job.language], w) == job.testCases.Keys
  {
    BuildFailsAlike(job, order, cfg, reg, w, m);
    if m.status != BuildFailed {
      ResultsStayWithCases(job, order, cfg, reg, w, m);
      var lang := reg[job.language];
      WalkVerdict(job.testCases, order, Results(m.tests), BuildCalls(lang), cfg, lang, w);
    }
  }

  // ----- The verdict and the submitted list -----

  /** A listed case on its own: its input, newline-terminated, against its own expectation. */
  function ListedResult(cfg: Config, lang: Language, w: World, item: CaseItem): TestResult {
    var tc := TestCase(Formatted(item.input), Expected(item), 0, 0);
    RunTestResult(cfg, lang, w.jobDir, [], tc, w.process(0, CaseSpec(cfg, lang, w.jobDir, [], tc)))
  }

  ghost predicate SurvivorsPass(items: seq<CaseItem>, cfg: Config, lang: Language, w: World) {
    forall i: nat | i < |items| && Survives(items, i) :: ListedResult(cfg, lang, w, items[i]).status == Accepted
  }

  ghost predicate AllPass(items: seq<CaseItem>, cfg: Config, lang: Language, w: World) {
    forall i | 0 <= i < |items| :: ListedResult(cfg, lang, w, items[i]).status == Accepted
  }

  /** A surviving case is the map entry of its input. */
  lemma SurvivorIsEntry(items: seq<CaseItem>, i: nat, cfg: Config, lang: Language, w: World)
    requires i < |items| && Survives(items, i)
    ensures Formatted(items[i].input) in Collapse(items)
    ensures ListedResult(cfg, lang, w, items[i]) == EntryResult(cfg, lang, w, Collapse(items), Formatted(items[i].input), 0)
  {
    var last := CollapseIsLastWins(items, i);
  }

  lemma EntriesAreSurvivors(items: seq<CaseItem>, cfg: Config, lang: Language, w: World)
    ensures PassingKeys(Collapse(items), cfg, lang, w) == Collapse(items).Keys <==> SurvivorsPass(items, cfg, lang, w)
  {
    var m := Collapse(items);
    var passing := PassingKeys(m, cfg, lang, w);
    if SurvivorsPass(items, cfg, lang, w) {
      forall key | key in m ensures key in passing {
        var i := CollapseKeysAreListed(items, key);
        SurvivorIsEntry(items, i, cfg, lang, w);
      }
    }
    if passing == m.Keys {
      forall i: nat | i < |items| && Survives(items, i)
        ensures ListedResult(cfg, lang, w, items[i]).status == Accepted
      {
        SurvivorIsEntry(items, i, cfg, lang, w);
        assert Formatted(items[i].input) in passing;
      }
    }
  }

  /** A submission is accepted exactly when it builds and every case that is the last one with its input passes. */
  lemma AcceptedMeansSurvivorsPass(items: seq<CaseItem>, job: Job, order: seq<string>, cfg: Config, reg: Registry, w: World,
                                   m: LabelledResponse)
    requires Judged(job, order, cfg, reg, w, m) && Repeatable(w)
    requires job.testCases == Collapse(items)
    ensures job.language in reg
    ensures m.status == Accepted
            <==> BuildWorks(cfg, reg[job.language], w, []) && SurvivorsPass(items, cfg, reg[job.language], w)
  {
    AcceptedMeansEveryEntry(job, order, cfg, reg, w, m);
    EntriesAreSurvivors(items, cfg, reg[job.language], w);
  }

  /** Cases with the same input, up to the final newline, expect the same output, up to what the comparison
      calls exact. */
  ghost predicate Consistent(items: seq<CaseItem>) {
    forall i, j | 0 <= i < j < |items| && Formatted(items[i].input) == Formatted(items[j].input) ::
      CompareOutput(Expected(items[i]), Expected(items[j])) == Exact
  }

  /** For a consistent list the verdict is about every listed case, also about those the map dropped. */
  lemma AcceptedMeansAllPass(items: seq<CaseItem>, job: Job, order: seq<string>, cfg: Config, reg: Registry, w: World,
                             m: LabelledResponse)
    requires Judged(job, order, cfg, reg, w, m) && Repeatable(w)
    requires job.testCases == Collapse(items) && Consistent(items)
    ensures job.language in reg
    ensures m.status == Accepted
            <==> BuildWorks(cfg, reg[job.language], w, []) && AllPass(items, cfg, reg[job.language], w)
  {
    AcceptedMeansSurvivorsPass(items, job, order, cfg, reg, w, m);
    SurvivorsSpeakForAll(items, cfg, reg[job.language], w);
  }

  /** What a client polls once the report of a judged submission has reached the hash, whatever the hash held
      before: a terminal status, TIMEOUT just for a time-exceeded verdict, and the labelled results, which carry
      every case of the map once, with a failed build if and only if it does not build, and accepted if and only
      if it builds and every submitted case passes. */
  lemma PolledVerdict(items: seq<CaseItem>, job: Job, order: seq<string>, cfg: Config, reg: Registry, w: World,
                      m: LabelledResponse, luck: Luck, hash: Hash)
    requires Judged(job, order, cfg, reg, w, m) && Repeatable(w)
    requires job.testCases == Collapse(items) && Consistent(items) && luck.reportApplied
    ensures job.language in reg
    ensures var view := ViewOf(AfterWrites(hash, job.jobId, JobOutcome(job, order, true, cfg, reg, w), luck));
            && view.Found?
            && StatusField in view.fields && ResultField in view.fields
            && view.fields[StatusField] == StatusValue(if m.status == TimeExceeded then Timeout else Done)
            && view.fields[ResultField] == Decoded(m)
            && multiset(Pairs(m.tests)) == multiset(Collapse(items).Items)
            && (m.status == BuildFailed <==> !BuildWorks(cfg, reg[job.language], w, []))
            && (m.status == Accepted <==> BuildWorks(cfg, reg[job.language], w, []) && AllPass(items, cfg, reg[job.language], w))
  {
    AcceptedMeansAllPass(items, job, order, cfg, reg, w, m);
    BuildFailsAlike(job, order, cfg, reg, w, m);
    LabelsAreTheMap(job, order, cfg, reg, w, m);
    JudgedIsReported(job, order, cfg, reg, w, m);
    ReportView(job.jobId, JobOutcome(job, order, true, cfg, reg, w).value, luck, hash);
  }

  lemma ReportView(jobId: string, report: Report, luck: Luck, hash: Hash)
    requires report.Succeeded? && luck.reportApplied
    ensures var view := ViewOf(AfterWrites(hash, jobId, Some(report), luck));
            && view.Found? && StatusField in view.fields && ResultField in view.fields
            && view.fields[StatusField] == StatusValue(StatusOf(report)) && view.fields[ResultField] == Decoded(report.result)
  {
    assert StatusField in AfterWrites(hash, jobId, Some(report), luck);
  }

  lemma SurvivorsSpeakForAll(items: seq<CaseItem>, cfg: Config, lang: Language, w: World)
    requires Consistent(items)
    ensures SurvivorsPass(items, cfg, lang, w) <==> AllPass(items, cfg, lang, w)
  {
    if SurvivorsPass(items, cfg, lang, w) {
      forall i: nat | i < |items| ensures ListedResult(cfg, lang, w, items[i]).status == Accepted {
        var j := CollapseIsLastWins(items, i);
        if i < j {
          SameInputSameVerdict(items[i], items[j], cfg, lang, w);
        }
      }
    }
  }

  lemma SameInputSameVerdict(a: CaseItem, b: CaseItem, cfg: Config, lang: Language, w: World)
    requires Formatted(a.input) == Formatted(b.input)
    requires CompareOutput(Expected(a), Expected(b)) == Exact
    ensures ListedResult(cfg, lang, w, a) == ListedResult(cfg, lang, w, b)
  {
    var tc := TestCase(Formatted(a.input), Expected(a), 0, 0);
    var out := Captured(cfg.maxOutputBytes, w.process(0, CaseSpec(cfg, lang, w.jobDir, [], tc)).stdout);
    ComparisonIsNestedEquivalence(Expected(a), Expected(b), out);
    ComparisonIsNestedEquivalence(out, Expected(a), Expected(a));
    ComparisonIsNestedEquivalence(out, Expected(b), Expected(b));
  }

  // ----- What an inconsistent list allows -----

  /** Every expectation of the map can be met under the output cap. */
  predicate AllFitCap(cap: int, m: map<string, string>) {
    forall key | key in m :: FitsCap(cap, m[key])
  }

  /** A program that answers every input of the map with what the map expects, as briefly as possible. */
  function Oracle(m: map<string, string>): (nat, RunSpec) -> ProcessEnd {
    (k: nat, spec: RunSpec) => Printing(if spec.stdin in m then Guarded(NormalizeStrict(m[spec.stdin])) else "")
  }

  /** A job to be judged under a configuration that can start its processes. */
  ghost predicate ReadyToJudge(job: Job, order: seq<string>, cfg: Config, reg: Registry, w: World) {
    && job.kind == "submit" && job.sourceCode != "" && job.language in reg && job.language != ""
    && IsOrder(order, job.testCases) && job.testCases != map[]
    && Precheck(cfg, reg, RequestOf(job, CasesInOrder(job.testCases, order)), w) == None
  }

  ghost predicate CanStart(cfg: Config, lang: Language) {
    cfg.nsjailPath != "" && lang.run.command != "" && (lang.build.Some? ==> lang.build.value.command != "")
  }

  /** A job that passes the checks is judged unless its build process breaks. */
  lemma ReadyIsJudged(job: Job, order: seq<string>, cfg: Config, reg: Registry, w: World) returns (m: LabelledResponse)
    requires ReadyToJudge(job, order, cfg, reg, w) && !BuildBreaks(cfg, reg[job.language], w, [])
    ensures Judged(job, order, cfg, reg, w, m)
  {
    var req := RequestOf(job, CasesInOrder(job.testCases, order));
    RunByBuild(cfg, reg, req, w);
    ResponseShape(cfg, reg, req, w);
    EmptyOrder(order, job.testCases);
    var resp := RunOf(job, order, cfg, reg, w).resp;
    m := LabelledResponse(resp.status, resp.build, LabelledTests(req, resp.tests));
  }

  /** On its own, a listed case passes for the oracle exactly when it expects what the map kept for its input. */
  lemma OracleAnswers(item: CaseItem, m: map<string, string>, cfg: Config, lang: Language, cheat: World)
    requires cheat.process == Oracle(m) && Formatted(item.input) in m && CanStart(cfg, lang)
    requires AllFitCap(cfg.maxOutputBytes, m)
    ensures ListedResult(cfg, lang, cheat, item).status == Accepted
            <==> CompareOutput(m[Formatted(item.input)], Expected(item)) == Exact
  {
    var kept := m[Formatted(item.input)];
    var text := Guarded(NormalizeStrict(kept));
    var tc := TestCase(Formatted(item.input), Expected(item), 0, 0);
    FitsCapExactly(cfg.maxOutputBytes, kept, text);
    PrintingIsCaptured(cfg.maxOutputBytes, text);
    CaseAcceptedExactly(cfg, lang, cheat.jobDir, [], tc, Printing(text));
    ComparisonCharacterized(kept, Expected(item));
  }

  lemma OraclePasses(m: map<string, string>, cfg: Config, lang: Language, cheat: World)
    requires cheat.process == Oracle(m) && CanStart(cfg, lang) && AllFitCap(cfg.maxOutputBytes, m)
    ensures PassingKeys(m, cfg, lang, cheat) == m.Keys && Repeatable(cheat)
  {
    forall key | key in m ensures key in PassingKeys(m, cfg, lang, cheat) {
      EntryPasses(m, key, cfg, lang, cheat);
    }
  }

  lemma EntryPasses(m: map<string, string>, key: string, cfg: Config, lang: Language, cheat: World)
    requires cheat.process == Oracle(m) && key in m && CanStart(cfg, lang) && AllFitCap(cfg.maxOutputBytes, m)
    ensures EntryResult(cfg, lang, cheat, m, key, 0).status == Accepted
  {
    var text := Guarded(NormalizeStrict(m[key]));
    FitsCapExactly(cfg.maxOutputBytes, m[key], text);
    PrintingIsCaptured(cfg.maxOutputBytes, text);
    CaseAcceptedExactly(cfg, lang, cheat.jobDir, [], EntryCase(m, key), Printing(text));
  }

  /** With the oracle for a program the build succeeds. */
  lemma OracleBuilds(m: map<string, string>, cfg: Config, lang: Language, cheat: World)
    requires cheat.process == Oracle(m) && "" !in m && CanStart(cfg, lang)
    ensures BuildWorks(cfg, lang, cheat, []) && !BuildBreaks(cfg, lang, cheat, [])
  {
  }

  lemma OracleIsAccepted(items: seq<CaseItem>, job: Job, order: seq<string>, cfg: Config, reg: Registry, cheat: World)
    returns (m: LabelledResponse)
    requires cheat.process == Oracle(job.testCases) && job.testCases == Collapse(items)
    requires ReadyToJudge(job, order, cfg, reg, cheat) && CanStart(cfg, reg[job.language])
    requires AllFitCap(cfg.maxOutputBytes, job.testCases)
    ensures Judged(job, order, cfg, reg, cheat, m) && Repeatable(cheat) && m.status == Accepted
  {
    NoEmptyKey(items);
    OracleBuilds(job.testCases, cfg, reg[job.language], cheat);
    m := ReadyIsJudged(job, order, cfg, reg, cheat);
    OraclePasses(job.testCases, cfg, reg[job.language], cheat);
    AcceptedMeansEveryEntry(job, order, cfg, reg, cheat, m);
  }

  lemma NoEmptyKey(items: seq<CaseItem>)
    ensures "" !in Collapse(items)
  {
    if "" in Collapse(items) {
      var i := CollapseKeysAreListed(items, "");
    }
  }

  /** For an inconsistent list the verdict says less: some program is accepted although a listed case,
      judged on its own, is not. */
  lemma InconsistentListMisleads(items: seq<CaseItem>, job: Job, order: seq<string>, cfg: Config, reg: Registry, w: World)
    returns (cheat: World, m: LabelledResponse, i: nat)
    requires !Consistent(items) && job.testCases == Collapse(items) && AllFitCap(cfg.maxOutputBytes, job.testCases)
    requires ReadyToJudge(job, order, cfg, reg, w) && CanStart(cfg, reg[job.language])
    ensures cheat == w.(process := cheat.process)
    ensures Judged(job, order, cfg, reg, cheat, m) && Repeatable(cheat) && m.status == Accepted
    ensures i < |items| && ListedResult(cfg, reg[job.language], cheat, items[i]).status != Accepted
  {
    cheat := w.(process := Oracle(job.testCases));
    var a, b :| 0 <= a < b < |items| && Formatted(items[a].input) == Formatted(items[b].input)
                && CompareOutput(Expected(items[a]), Expected(items[b])) != Exact;
    m := OracleIsAccepted(items, job, order, cfg, reg, cheat);
    var last := CollapseIsLastWins(items, a);
    var kept := job.testCases[Formatted(items[a].input)];
    i := if CompareOutput(kept, Expected(items[a])) != Exact then a else b;
    ComparisonIsNestedEquivalence(kept, Expected(items[a]), Expected(items[b]));
    OracleAnswers(items[i], job.testCases, cfg, reg[job.language], cheat);
  }

  /** The job is accepted although not every listed case passes. */
  ghost predicate Misled(items: seq<CaseItem>, job: Job, order: seq<string>, cfg: Config, reg: Registry, w: World) {
    && Repeatable(w) && job.language in reg && !AllPass(items, cfg, reg[job.language], w)
    && exists m :: Judged(job, order, cfg, reg, w, m) && m.status == Accepted
  }

  /** Only what can be captured is accepted. */
  lemma AcceptedFitsCap(job: Job, order: seq<string>, cfg: Config, reg: Registry, w: World, m: LabelledResponse)
    requires Judged(job, order, cfg, reg, w, m) && Repeatable(w) && m.status == Accepted
    ensures AllFitCap(cfg.maxOutputBytes, job.testCases)
  {
    AcceptedMeansEveryEntry(job, order, cfg, reg, w, m);
    var tests := job.testCases;
    var lang := reg[job.language];
    forall key | key in tests ensures FitsCap(cfg.maxOutputBytes, tests[key]) {
      assert key in PassingKeys(tests, cfg, lang, w);
      PassableExactly(cfg, lang, w.jobDir, [], EntryCase(tests, key));
    }
  }

  /** Which lists some program can mislead on: those that are inconsistent and whose kept expectations all fit
      under the output cap. */
  lemma MisleadsExactly(items: seq<CaseItem>, job: Job, order: seq<string>, cfg: Config, reg: Registry, w: World)
    requires job.testCases == Collapse(items) && ReadyToJudge(job, order, cfg, reg, w) && CanStart(cfg, reg[job.language])
    ensures (exists cheat: World :: cheat == w.(process := cheat.process) && Misled(items, job, order, cfg, reg, cheat))
            <==> !Consistent(items) && AllFitCap(cfg.maxOutputBytes, job.testCases)
  {
    if cheat: World :| cheat == w.(process := cheat.process) && Misled(items, job, order, cfg, reg, cheat) {
      var m :| Judged(job, order, cfg, reg, cheat, m) && m.status == Accepted;
      AcceptedFitsCap(job, order, cfg, reg, cheat, m);
      if Consistent(items) {
        AcceptedMeansAllPass(items, job, order, cfg, reg, cheat, m);
      }
    }
    if !Consistent(items) && AllFitCap(cfg.maxOutputBytes, job.testCases) {
      var cheat, m, i := InconsistentListMisleads(items, job, order, cfg, reg, w);
      assert Misled(items, job, order, cfg, reg, cheat);
    }
  }
}
