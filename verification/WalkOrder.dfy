/** How the verdict of a judged job depends on the order in which its map of test cases is walked. */
module WalkOrder {
  import opened Types
  import opened Submission
  import opened Sandbox
  import opened Verdict
  import opened Execution
  import opened ExecutionFacts
  import opened JobHash
  import opened QueueWorker
  import WorkerFacts
  import opened Judging

  /** The status of a map entry under a deterministic sandbox. */
  function EntryStatus(cfg: Config, lang: Language, w: World, m: map<string, string>, key: string): Status
    requires key in m
  {
    EntryResult(cfg, lang, w, m, key, 0).status
  }

  ghost predicate FailingKey(cfg: Config, lang: Language, w: World, m: map<string, string>, key: string) {
    key in m && EntryStatus(cfg, lang, w, m, key) != Accepted
  }

  /** All entries that fail do so with one status. */
  ghost predicate FailAlike(cfg: Config, lang: Language, w: World, m: map<string, string>) {
    forall x, y | FailingKey(cfg, lang, w, m, x) && FailingKey(cfg, lang, w, m, y) ::
      EntryStatus(cfg, lang, w, m, x) == EntryStatus(cfg, lang, w, m, y)
  }

  /** Either all entries that fail run out of time or none does. */
  ghost predicate TimeOutAlike(cfg: Config, lang: Language, w: World, m: map<string, string>) {
    forall x, y | FailingKey(cfg, lang, w, m, x) && FailingKey(cfg, lang, w, m, y) ::
      EntryStatus(cfg, lang, w, m, x) == TimeExceeded <==> EntryStatus(cfg, lang, w, m, y) == TimeExceeded
  }

  /** The job status that goes with a labelled response. */
  function PolledStatus(m: LabelledResponse): JobStatus {
    StatusOf(Succeeded(m.status == TimeExceeded, m))
  }

  ghost predicate OneVerdict(job: Job, cfg: Config, reg: Registry, w: World, status: Status) {
    forall b, m | Judged(job, b, cfg, reg, w, m) :: m.status == status
  }

  ghost predicate OnePolledStatus(job: Job, cfg: Config, reg: Registry, w: World, status: JobStatus) {
    forall b, m | Judged(job, b, cfg, reg, w, m) :: PolledStatus(m) == status
  }

  // ----- What one walk reports -----

  /** The first failure of a walk is the status of a failing entry, if there is one. */
  lemma FirstFailureNamesKey(m: map<string, string>, order: seq<string>, results: seq<TestResult>, first: nat,
                             cfg: Config, lang: Language, w: World)
    requires IsOrder(order, m) && Deterministic(w) && RunInOrder(m, order, results, first, cfg, lang, w)
    ensures FirstFailure(results) == Accepted ==> forall key :: !FailingKey(cfg, lang, w, m, key)
    ensures FirstFailure(results) != Accepted ==>
              exists key :: FailingKey(cfg, lang, w, m, key) && EntryStatus(cfg, lang, w, m, key) == FirstFailure(results)
  {
    FirstFailureIsFirst(results);
    forall i: nat | i < |order| ensures results[i].status == EntryStatus(cfg, lang, w, m, order[i]) {
      EntryResultRepeats(m, order[i], first + i, cfg, lang, w);
    }
    if FirstFailure(results) == Accepted {
      forall key ensures !FailingKey(cfg, lang, w, m, key) {
        if key in m {
          assert key in order;
        }
      }
    } else {
      var i :| 0 <= i < |results| && results[i].status == FirstFailure(results);
      assert FailingKey(cfg, lang, w, m, order[i]);
    }
  }

  lemma WalkNamesKey(job: Job, order: seq<string>, cfg: Config, reg: Registry, w: World, m: LabelledResponse)
    requires Judged(job, order, cfg, reg, w, m) && Deterministic(w) && m.status != BuildFailed
    ensures job.language in reg
    ensures var lang := reg[job.language];
            m.status == Accepted ==> forall key :: !FailingKey(cfg, lang, w, job.testCases, key)
    ensures var lang := reg[job.language];
            m.status != Accepted ==>
              exists key :: FailingKey(cfg, lang, w, job.testCases, key) && EntryStatus(cfg, lang, w, job.testCases, key) == m.status
  {
    ResultsStayWithCases(job, order, cfg, reg, w, m);
    var lang := reg[job.language];
    FirstFailureNamesKey(job.testCases, order, Results(m.tests), BuildCalls(lang), cfg, lang, w);
  }

  // ----- Every walk is possible -----

  lemma OrdersHaveOneLength(m: map<string, string>, a: seq<string>, b: seq<string>)
    requires IsOrder(a, m) && IsOrder(b, m)
    ensures |a| == |b|
  {
    DistinctSeqIsSet(a, m.Keys);
    DistinctSeqIsSet(b, m.Keys);
    assert |multiset(a)| == |multiset(b)|;
  }

  lemma OrderStartingWith(m: map<string, string>, key: string) returns (order: seq<string>)
    requires key in m
    ensures IsOrder(order, m) && order != [] && order[0] == key
  {
    var rest := OrderOf(m.Keys - {key});
    order := [key] + rest;
  }

  /** The checks do not look at the order of the cases. */
  lemma EveryWalkIsReady(job: Job, a: seq<string>, b: seq<string>, cfg: Config, reg: Registry, w: World)
    requires ReadyToJudge(job, a, cfg, reg, w) && IsOrder(b, job.testCases)
    ensures ReadyToJudge(job, b, cfg, reg, w)
  {
    var ra := RequestOf(job, CasesInOrder(job.testCases, a));
    var rb := RequestOf(job, CasesInOrder(job.testCases, b));
    OrdersHaveOneLength(job.testCases, a, b);
    WorkerFacts.EmptyOrder(a, job.testCases);
    PrecheckExactly(cfg, reg, ra, w);
    PrecheckExactly(cfg, reg, rb, w);
    assert Fits(ra.testCases[0].timeLimitS, ra.testCases[0].memoryKB, reg[job.language].run);
    assert AllFit(rb.testCases, reg[job.language].run);
  }

  lemma JudgedIsReady(job: Job, order: seq<string>, cfg: Config, reg: Registry, w: World, m: LabelledResponse)
    requires Judged(job, order, cfg, reg, w, m)
    ensures ReadyToJudge(job, order, cfg, reg, w) && !BuildBreaks(cfg, reg[job.language], w, [])
  {
    JudgedRun(job, order, cfg, reg, w, m);
    RunByBuild(cfg, reg, RequestOf(job, CasesInOrder(job.testCases, order)), w);
  }

  lemma FrontDecides(m: map<string, string>, order: seq<string>, results: seq<TestResult>, first: nat,
                     cfg: Config, lang: Language, w: World)
    requires IsOrder(order, m) && order != [] && FailingKey(cfg, lang, w, m, order[0])
    requires Deterministic(w) && RunInOrder(m, order, results, first, cfg, lang, w)
    ensures FirstFailure(results) == EntryStatus(cfg, lang, w, m, order[0])
  {
    EntryResultRepeats(m, order[0], first, cfg, lang, w);
  }

  /** A walk that starts with a failing entry reports its status, and there is such a walk. */
  lemma WalkStartingWith(job: Job, a: seq<string>, key: string, cfg: Config, reg: Registry, w: World)
    returns (b: seq<string>, m: LabelledResponse)
    requires ReadyToJudge(job, a, cfg, reg, w) && Deterministic(w) && BuildWorks(cfg, reg[job.language], w, [])
    requires FailingKey(cfg, reg[job.language], w, job.testCases, key)
    ensures Judged(job, b, cfg, reg, w, m) && m.status == EntryStatus(cfg, reg[job.language], w, job.testCases, key)
  {
    var lang := reg[job.language];
    b := OrderStartingWith(job.testCases, key);
    EveryWalkIsReady(job, a, b, cfg, reg, w);
    m := ReadyIsJudged(job, b, cfg, reg, w);
    BuildFailsAlike(job, b, cfg, reg, w, m);
    ResultsStayWithCases(job, b, cfg, reg, w, m);
    FrontDecides(job.testCases, b, Results(m.tests), BuildCalls(lang), cfg, lang, w);
  }

  lemma TwoWalks(job: Job, a: seq<string>, x: string, y: string, cfg: Config, reg: Registry, w: World)
    returns (b: seq<string>, mb: LabelledResponse, c: seq<string>, mc: LabelledResponse)
    requires ReadyToJudge(job, a, cfg, reg, w) && Deterministic(w) && BuildWorks(cfg, reg[job.language], w, [])
    requires FailingKey(cfg, reg[job.language], w, job.testCases, x)
    requires FailingKey(cfg, reg[job.language], w, job.testCases, y)
    ensures Judged(job, b, cfg, reg, w, mb) && mb.status == EntryStatus(cfg, reg[job.language], w, job.testCases, x)
    ensures Judged(job, c, cfg, reg, w, mc) && mc.status == EntryStatus(cfg, reg[job.language], w, job.testCases, y)
    ensures mb.status != mc.status ==> forall status :: !OneVerdict(job, cfg, reg, w, status)
    ensures mb.status == TimeExceeded != mc.status ==> forall status :: !OnePolledStatus(job, cfg, reg, w, status)
  {
    b, mb := WalkStartingWith(job, a, x, cfg, reg, w);
    c, mc := WalkStartingWith(job, a, y, cfg, reg, w);
  }

  // ----- When the order matters -----

  /** Two walks report the same verdict if failing entries fail alike. */
  lemma AlikeWalks(job: Job, a: seq<string>, b: seq<string>, cfg: Config, reg: Registry, w: World,
                   ma: LabelledResponse, mb: LabelledResponse)
    requires Judged(job, a, cfg, reg, w, ma) && Judged(job, b, cfg, reg, w, mb) && Deterministic(w)
    ensures job.language in reg
    ensures !BuildWorks(cfg, reg[job.language], w, []) || FailAlike(cfg, reg[job.language], w, job.testCases) ==>
              ma.status == mb.status
    ensures !BuildWorks(cfg, reg[job.language], w, []) || TimeOutAlike(cfg, reg[job.language], w, job.testCases) ==>
              PolledStatus(ma) == PolledStatus(mb)
  {
    BuildFailsAlike(job, a, cfg, reg, w, ma);
    BuildFailsAlike(job, b, cfg, reg, w, mb);
    if ma.status != BuildFailed {
      WalkNamesKey(job, a, cfg, reg, w, ma);
      WalkNamesKey(job, b, cfg, reg, w, mb);
    }
  }

  /** The verdict is the same for every walk of the map exactly when the build fails or all failing entries
      fail with one status. */
  lemma VerdictOfWalksExactly(job: Job, a: seq<string>, cfg: Config, reg: Registry, w: World, ma: LabelledResponse)
    requires Judged(job, a, cfg, reg, w, ma) && Deterministic(w)
    ensures job.language in reg
    ensures OneVerdict(job, cfg, reg, w, ma.status)
            <==> !BuildWorks(cfg, reg[job.language], w, []) || FailAlike(cfg, reg[job.language], w, job.testCases)
  {
    JudgedIsReady(job, a, cfg, reg, w, ma);
    var lang, tests := reg[job.language], job.testCases;
    if !BuildWorks(cfg, lang, w, []) || FailAlike(cfg, lang, w, tests) {
      forall b, m | Judged(job, b, cfg, reg, w, m) ensures m.status == ma.status {
        AlikeWalks(job, a, b, cfg, reg, w, ma, m);
      }
    } else {
      var x, y :| FailingKey(cfg, lang, w, tests, x) && FailingKey(cfg, lang, w, tests, y)
                  && EntryStatus(cfg, lang, w, tests, x) != EntryStatus(cfg, lang, w, tests, y);
      var b, mb, c, mc := TwoWalks(job, a, x, y, cfg, reg, w);
    }
  }

  /** Whether a poll finds TIMEOUT or DONE is the same for every walk of the map exactly when the build fails or
      timeouts and other failures are not mixed. */
  lemma TimeoutOfWalksExactly(job: Job, a: seq<string>, cfg: Config, reg: Registry, w: World, ma: LabelledResponse)
    requires Judged(job, a, cfg, reg, w, ma) && Deterministic(w)
    ensures job.language in reg
    ensures OnePolledStatus(job, cfg, reg, w, PolledStatus(ma))
            <==> !BuildWorks(cfg, reg[job.language], w, []) || TimeOutAlike(cfg, reg[job.language], w, job.testCases)
  {
    JudgedIsReady(job, a, cfg, reg, w, ma);
    var lang, tests := reg[job.language], job.testCases;
    if !BuildWorks(cfg, lang, w, []) || TimeOutAlike(cfg, lang, w, tests) {
      forall b, m | Judged(job, b, cfg, reg, w, m) ensures PolledStatus(m) == PolledStatus(ma) {
        AlikeWalks(job, a, b, cfg, reg, w, ma, m);
      }
    } else {
      var x, y :| FailingKey(cfg, lang, w, tests, x) && FailingKey(cfg, lang, w, tests, y)
                  && EntryStatus(cfg, lang, w, tests, x) == TimeExceeded && EntryStatus(cfg, lang, w, tests, y) != TimeExceeded;
      var b, mb, c, mc := TwoWalks(job, a, x, y, cfg, reg, w);
    }
  }

  // ----- Which jobs can show it -----

  /** A program that never ends on input `x`, exits with one on input `y` and with zero on any other. */
  function Torn(x: string, y: string): (nat, RunSpec) -> ProcessEnd {
    (k: nat, spec: RunSpec) =>
      if spec.stdin == x then ProcessEnd([], [], NoError, true, 0, 0)
      else if spec.stdin == y then ProcessEnd([], [], ExitError(1, None), false, 0, 0)
      else Printing("")
  }

  lemma TornStatuses(x: string, y: string, m: map<string, string>, cfg: Config, lang: Language, w: World)
    requires x in m && y in m && x != y && "" !in m && CanStart(cfg, lang) && w.process == Torn(x, y)
    ensures EntryStatus(cfg, lang, w, m, x) == TimeExceeded && EntryStatus(cfg, lang, w, m, y) == RuntimeError
    ensures Deterministic(w) && BuildWorks(cfg, lang, w, []) && !BuildBreaks(cfg, lang, w, [])
  {
  }

  /** For any job of the front end with two different inputs there is a deterministic program for which one walk of
      the map ends in TIMEOUT and another in DONE. */
  lemma WalkDecidesTimeout(items: seq<CaseItem>, job: Job, x: string, y: string, a: seq<string>, cfg: Config, reg: Registry, w: World)
    returns (torn: World, b: seq<string>, mb: LabelledResponse, c: seq<string>, mc: LabelledResponse)
    requires job.testCases == Collapse(items) && x in job.testCases && y in job.testCases && x != y
    requires ReadyToJudge(job, a, cfg, reg, w) && CanStart(cfg, reg[job.language])
    ensures torn == w.(process := torn.process) && Deterministic(torn)
    ensures Judged(job, b, cfg, reg, torn, mb) && JobOutcome(job, b, true, cfg, reg, torn) == Some(Succeeded(true, mb))
    ensures Judged(job, c, cfg, reg, torn, mc) && JobOutcome(job, c, true, cfg, reg, torn) == Some(Succeeded(false, mc))
    ensures PolledStatus(mb) == Timeout && PolledStatus(mc) == Done
  {
    torn := w.(process := Torn(x, y));
    NoEmptyKey(items);
    TornStatuses(x, y, job.testCases, cfg, reg[job.language], torn);
    b, mb, c, mc := TwoWalks(job, a, x, y, cfg, reg, torn);
    JudgedIsReported(job, b, cfg, reg, torn, mb);
    JudgedIsReported(job, c, cfg, reg, torn, mc);
  }

  /** Whatever deterministic program is submitted, all walks end in the same job status. */
  ghost predicate OrderNeverMatters(job: Job, cfg: Config, reg: Registry, w: World) {
    forall v: World | v == w.(process := v.process) && Deterministic(v) :: WalksAgree(job, cfg, reg, v)
  }

  ghost predicate WalksAgree(job: Job, cfg: Config, reg: Registry, w: World) {
    forall b, mb, c, mc | Judged(job, b, cfg, reg, w, mb) && Judged(job, c, cfg, reg, w, mc) ::
      PolledStatus(mb) == PolledStatus(mc)
  }

  lemma SingleCaseAgrees(job: Job, x: string, cfg: Config, reg: Registry, w: World)
    requires job.testCases.Keys == {x} && Deterministic(w)
    ensures WalksAgree(job, cfg, reg, w)
  {
    forall b, mb, c, mc | Judged(job, b, cfg, reg, w, mb) && Judged(job, c, cfg, reg, w, mc)
      ensures PolledStatus(mb) == PolledStatus(mc)
    {
      assert forall k | k in job.testCases :: k == x;
      AlikeWalks(job, b, c, cfg, reg, w, mb, mc);
    }
  }

  /** The order of the map never matters exactly for jobs with a single test case. */
  lemma OrderNeverMattersExactly(items: seq<CaseItem>, job: Job, a: seq<string>, cfg: Config, reg: Registry, w: World)
    requires job.testCases == Collapse(items) && ReadyToJudge(job, a, cfg, reg, w) && CanStart(cfg, reg[job.language])
    ensures OrderNeverMatters(job, cfg, reg, w) <==> |job.testCases| == 1
  {
    var x, others := SplitOff(job.testCases.Keys);
    if others == {} {
      forall v: World | v == w.(process := v.process) && Deterministic(v) ensures WalksAgree(job, cfg, reg, v) {
        SingleCaseAgrees(job, x, cfg, reg, v);
      }
    } else {
      var y :| y in others;
      var torn, b, mb, c, mc := WalkDecidesTimeout(items, job, x, y, a, cfg, reg, w);
      assert !WalksAgree(job, cfg, reg, torn);
    }
  }

  lemma SplitOff(keys: set<string>) returns (x: string, others: set<string>)
    requires keys != {}
    ensures x in keys && x !in others && keys == {x} + others
    ensures others == {} <==> |keys| == 1
  {
    x :| x in keys;
    others := keys - {x};
    assert |others| == |keys| - 1;
  }
}
