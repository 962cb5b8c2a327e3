# goboxd: admission, judging and job lifecycle

A Dafny model of the code-execution engine `goboxd` and its submission front end, with proofs of what they
guarantee. `dafny verify dfyconfig.toml` checks the whole project; nothing in it is executed.

The pieces, in the order in which a submission meets them:

* **Submission** (`Submission.dfy`): the front end turns a list of test cases into a map from newline-terminated
  input to expected output; of two cases with the same input the later one wins.
* **Job hash and lifecycle** (`JobHash.dfy`, `Lifecycle.dfy`): the worker's merging writes to a job's Redis hash,
  the view a poll gets, and a state machine over any number of overlapping deliveries of one message, with lost
  writes, failed deletes, crashes and expiry as steps.
* **Worker** (`Worker.dfy`, `WorkerFacts.dfy`): building a request from a job (the map is walked in an arbitrary
  order), downgrading playground runs in place, relabelling results, and handling one message from start to end.
* **Executor** (`Executor.dfy`, `ExecutorFacts.dfy`, `Processes.dfy`, `Verdict.dfy`, `Args.dfy`): admission, the checks before a run,
  build and test phases, the verdict, limits and command lines. The sandboxed processes are an oracle: a function
  from the number of the process within the call and its spec to how it ends.
* **Admission** (`Admission.dfy`, `Stats.dfy`): any number of concurrent callers and snapshot readers as a
  transition system, one atomic operation per step, over the same latency ring that the metrics class keeps.
* **Sandbox edge** (`Sandbox.dfy`, `Capture.dfy`): classification of how a process ended, and the capped output
  buffers through which everything it prints has to go.
* **Comparison** (`Strings.dfy`, `Compare.dfy`): Go's string functions as recursive definitions, and the three
  comparison levels.
* **Judging** (`Judge.dfy`, `WalkOrder.dfy`): the pipeline end to end, from the submitted list to the polled verdict,
  and what the walk order of the map has to do with it.

What the proofs bring out about the code:

* The comment on the semaphore says that it caps executions at `MaxConcurrency`. The gate has
  `MaxConcurrency + QueueDepth` slots and nothing else limits execution, so the comment holds exactly when the queue
  depth is zero (`Admission.ConcurrencyCapExactly`).
* A metrics snapshot can report more calls in flight than calls in total, by as much as the capacity
  (`Admission.TornSnapshotCanInvert`), and only a capacity of zero rules it out (`Admission.NeverInvertedExactly`).
  In a given run it happens exactly when the calls started between the snapshot's two loads outnumber those ended
  there by more than the admitted calls that were not in flight before (`Admission.TornSnapshotExactly`).
* `handleMessage` is documented to surface every error in the hash. If the report write is lost the message is
  deleted all the same and the job stays RUNNING with nobody at work (`Lifecycle.LostReportStrandsJob`). Lost reports
  and crashes are exactly the faults that can do this; lost running marks, failed deletes, redelivery and expiry
  cannot (`Lifecycle.CanStrandExactly`). A stranded job says RUNNING until its hash expires or the report of one more
  delivery arrives (`Lifecycle.StrandedLasts`).
* Writes merge, so a job that failed once and succeeded on redelivery is DONE with an error field
  (`Lifecycle.StaleErrorSurvives`). Redelivery is the one fault behind this (`Lifecycle.CanShowStaleErrorExactly`).
* A "submit" job without test cases that passes the checks and builds makes relabelling index out of range
  (`WorkerFacts.PanicExactly`); no other job can (`WorkerFacts.NeverPanicsExactly`), and the front end never queues
  one.
* The comment in `buildRequest` says that the order of the map does not matter for the verdict. It does not for
  acceptance (`Judging.WalkOrderOnlyPermutes`). The reported failure is the same for every walk exactly when the build
  fails or all failing entries fail with one status (`WalkOrder.VerdictOfWalksExactly`), the choice between DONE and
  TIMEOUT exactly when the build fails or timeouts and other failures are not mixed
  (`WalkOrder.TimeoutOfWalksExactly`). Every job of the front end with two different inputs has a program for which one
  walk ends in TIMEOUT and another in DONE (`WalkOrder.WalkDecidesTimeout`), so the comment holds for all programs
  exactly when there is a single case (`WalkOrder.OrderNeverMattersExactly`).
* The time and memory limits of a submission are compared with the language's limits but never applied to a test
  (`WorkerFacts.JobLimitsOnlyAdmit`), although the API description says that they are converted inside the engine.
* A submission is accepted exactly when it builds and every listed case passes, provided that cases with equal input
  have expectations that compare as exact (`Judging.AcceptedMeansAllPass`). For other lists some program is accepted
  although a listed case fails, unless the output cap keeps it from answering at all (`Judging.MisleadsExactly`).
* The output cap decides which cases can be passed: exactly those whose expectation, up to line endings and trailing
  blanks, fits under it (`ExecutionFacts.PassableExactly`).
* The strict normalization is not idempotent, and `renderArgs` is not a simultaneous substitution, in general; each
  has its exact condition (`OutputCompare.StrictIdempotentExactly`, `RenderArgs.RenderIsOnePassExactly`).
* The truncation flag is also set by an empty write to a full buffer (`OutputCapture.CappedExactly`).

Modelling conventions: strings are sequences of code points; a program's output is taken as already decoded text;
durations are in nanoseconds; integers are unbounded.

## Model

| member | source | states |
|---|---|---|
| GoStrings.FieldsOfJoin | internal/executor/executor.go:354-358 | splitting undoes joining with one space, for any list of non-empty tokens free of white space |
| GoStrings.FieldsSplitExactly | internal/executor/executor.go:352-358 | splitting separates at each of the 25 white-space characters, whatever stands on either side, and at no other |
| OutputCompare.UnfoldToLF | internal/executor/executor.go:348 | line-ending conversion turns a leading CRLF into LF and copies any other character |
| OutputCompare.StrictFormExactly | internal/executor/executor.go:345-350 | the strict form is the one beginning of the converted text that leaves only spaces, tabs and LFs behind and ends in none of them |
| OutputCompare.TokensSurviveNormalization | internal/executor/executor.go:345-358 | neither normalizer changes the list of white-space-separated tokens |
| OutputCompare.LooseAbsorbsStrict | internal/executor/executor.go:345-358 | the loose form of the strict form is the loose form, and the loose form is idempotent |
| OutputCompare.ComparisonCharacterized | internal/executor/executor.go:332-343 | exact iff the strict forms agree, mismatch iff the token lists differ, exact implies equal tokens |
| OutputCompare.ComparisonIsNestedEquivalence | internal/executor/executor.go:332-343 | the comparison is symmetric, exact is an equivalence that the comparison respects, and not-mismatch is a coarser equivalence |
| OutputCompare.StrictIgnoresTrailingBlanks | internal/executor/executor.go:345-350 | appending any mix of space, tab, LF and CRLF is invisible iff it does not complete a CRLF at the seam |
| OutputCompare.LineEndingRoundTrip | internal/executor/executor.go:348 | CRLF to LF undoes LF to CRLF on every string |
| OutputCompare.CrlfRewritingIsNeutral | internal/executor/executor.go:332-350 | rewriting LF as CRLF keeps the class against every expected output iff the output had no CRLF |
| OutputCompare.StrictIdempotentExactly | internal/executor/executor.go:345-350 | normalizing strictly twice is the same as once iff no CR CR LF stands before text |
| OutputCompare.StrictNotIdempotentWitness | internal/executor/executor.go:345-350 | a concrete output that a second strict normalization changes |
| OutputCompare.MatchesAreLongEnough | internal/executor/executor.go:345-350 | every output that counts as exact is at least as long as the strict form of the expectation plus one CR for each CRLF left in it |
| OutputCompare.ShortestMatchMatches | internal/executor/executor.go:345-350 | and an output of just that length counts as exact |
| RenderArgs.Render | internal/executor/executor.go:276-285 | one argument per template entry, each with both placeholders replaced, then the user flags unchanged |
| RenderArgs.RenderIsOnePassExactly | internal/executor/executor.go:276-285 | with safe names, replacing one placeholder after the other is simultaneous substitution iff no new artifact placeholder is put together |
| RenderArgs.NestedBracesWitness | internal/executor/executor.go:276-285 | a family of entries and safe source names for which the two differ |
| RenderArgs.TemplatesMeanWhatTheySay | internal/executor/executor.go:276-285 | an entry of brace-free literals and placeholders renders to its meaning, with no brace left |
| ExecutionFacts.CommandLinesAreClean | internal/executor/executor.go:82-97 | for every run, the name checks suffice for every command line: template arguments stay apart and brace-free, user flags follow in order |
| OutputCapture.CappedBuffer.Write | internal/sandbox/sandbox.go:198-213 | after any writes the buffer holds the first max bytes of everything written, the flag says whether a chunk was refused, every write reports its full length |
| OutputCapture.KeptExactly | internal/sandbox/sandbox.go:198-213 | a positive cap keeps the longest beginning that fits, any other keeps everything |
| OutputCapture.CappedExactly | internal/sandbox/sandbox.go:198-213 | the flag is set iff more than max was written or an empty chunk met a full buffer |
| OutputCapture.ChunkingIsInvisible | internal/sandbox/sandbox.go:191-215 | content and flag do not depend on how output is cut into non-empty chunks |
| Sandbox.ResultRecord.ClassifyExit | internal/sandbox/sandbox.go:168-189 | how the wait status becomes exit code, signal, out-of-time and out-of-memory flags, keeping flags already set |
| Sandbox.Run | internal/sandbox/sandbox.go:60-166 | the step-by-step run, capture of both outputs through capped buffers included, yields the outcome specified for its process end: errors, captured text, exit code, signal, time, memory and all three flags |
| OrderStatistics.Sort | internal/executor/stats.go:75 | sorts in place into the one sorted rearrangement |
| OrderStatistics.SortedUnique | internal/executor/stats.go:75 | a list has only one sorted rearrangement |
| OrderStatistics.RankSplits | internal/executor/stats.go:75-79 | the entry at sorted position i has at least i+1 samples at most it and n-i at least it |
| Stats.PercentileIndexInRange | internal/executor/stats.go:83-89 | whatever the floating-point rounding, percentile indices are in range and grow with the percentile |
| Stats.PushTracks | internal/executor/stats.go:33-41 | observing keeps the ring in step with the history of all durations |
| Stats.RingShape | internal/executor/stats.go:33-41 | slot j holds the latest observation whose index is j modulo the capacity; a ring that is not full writes at its size |
| Stats.WindowIsRecent | internal/executor/stats.go:57-62 | the window is, as a multiset, exactly the last min(k, 1024) durations |
| Stats.ReportExactly | internal/executor/stats.go:57-89 | counters and settings as given; the 50th, 95th and 99th percentile and the maximum are entries with the right number of samples on either side |
| Types.MillisecondsExactly | internal/executor/stats.go:76-79 | nanoseconds become milliseconds by dropping the remainder, on either side of zero |
| Stats.PercentilesInOrder | internal/executor/stats.go:75-79 | P50 ≤ P95 ≤ P99 ≤ max after truncation to milliseconds |
| Stats.Metrics.IncInFlight | internal/executor/stats.go:29 | bumps total and in-flight |
| Stats.Metrics.DecInFlight | internal/executor/stats.go:30 | takes one off in-flight and nothing else |
| Stats.Metrics.IncRejected | internal/executor/stats.go:31 | bumps rejected and nothing else |
| Stats.Metrics.Observe | internal/executor/stats.go:33-41 | one more duration in the history, the ring pushed accordingly |
| Stats.Metrics.TakeSnapshot | internal/executor/stats.go:57-81 | reports the order statistics of the window and the counters, and changes neither ring nor counters |
| Admission.AdmissionIsSafe | internal/executor/executor.go:55-70 | in every interleaving: channel length = holders, 0 ≤ inFlight ≤ channel length ≤ capacity, every counter equals the callers that bumped it |
| Admission.DeclinedOnlyWhenFull | internal/executor/executor.go:59-65 | a call is turned away only while other callers hold every slot |
| Admission.NobodyBlocks | internal/executor/executor.go:59-70 | every unfinished caller can always take its next step; the releasing receive finds an element |
| Admission.CanAlwaysDrain | internal/executor/executor.go:59-70 | from every reachable state the callers present can all finish |
| Admission.QuiescenceLeaksNothing | internal/executor/executor.go:59-70 | at rest the channel is empty, nothing is in flight, total + rejected = calls, every admitted call was measured |
| Admission.LoneCallIsARun | internal/executor/executor.go:55-70 | an uninterrupted call is a run of the protocol with the effect stated by the executor's contract |
| Admission.InFlightReaches | internal/executor/executor.go:34-41 | every in-flight count up to the capacity is reached |
| Admission.ConcurrencyCapExactly | internal/executor/executor.go:26-38 | in-flight stays within MaxConcurrency in all runs iff the queue depth is zero |
| Admission.TornSnapshotIsSane | internal/executor/stats.go:57-81 | a snapshot read at four moments of a run has samples ≤ total, samples ≤ 1024, 0 ≤ inFlight ≤ capacity, total + rejected ≤ calls, percentiles in order |
| Admission.TornSnapshotCanInvert | internal/executor/stats.go:64-71 | a snapshot can report in-flight above total by the whole capacity |
| Admission.NeverInvertedExactly | internal/executor/stats.go:64-71 | no snapshot of any run reports in-flight above total iff the capacity is zero |
| Admission.HistoryIsObserved | internal/executor/stats.go:33-41 | in every run the recorded durations are those of the observing steps, in order |
| Admission.ReaderSawFourMoments | internal/executor/stats.go:57-71 | every finished snapshot cuts its run at its four reads and consists of the ring's window, total, rejected and in-flight of those moments |
| Admission.TornSnapshotExactly | internal/executor/stats.go:57-81 | what it reports: the last 1024 durations recorded before the copy (all if fewer) as a multiset and the three counters of the loads; in-flight ≤ total + calls started in between; above total iff starts − ends in between exceed total − in-flight at the first load |
| Verdict.Rollup | internal/executor/executor.go:360-370 | the loop computes the specified verdict |
| Verdict.FirstFailureIsFirst | internal/executor/executor.go:364-369 | accepted iff every test is; otherwise the status of a failing test that only accepted ones precede |
| Verdict.AcceptanceIgnoresOrder | internal/executor/executor.go:364-369 | accepting does not depend on the order of the tests |
| Verdict.VerdictStableExactly | internal/executor/executor.go:360-370 | the verdict is the same for every order iff all failing tests have one status |
| Verdict.TimeoutStableExactly | internal/executor/executor.go:360-370 | whether the verdict on a list of tests is a timeout is the same for every order iff timeouts and other failures are not mixed |
| Execution.FilterFlags | internal/executor/executor.go:287-301 | the first user flag outside the allow list is the error; none iff all are allowed |
| Execution.BoundOverrides | internal/executor/executor.go:303-321 | the first override above its language limit is the error |
| Execution.OverridesBoundedExactly | internal/executor/executor.go:303-321 | no error iff neither the request nor any test case asks for more than the language allows; an error about a case names the first offender |
| Types.SafeNameExactly | internal/executor/executor.go:82-90 | a safe name is not empty and made of the listed characters |
| Execution.WhichErrorExactly | internal/executor/executor.go:72-127 | which error a request gets, as an iff for each kind: language, source size, number of tests, names, flags, limits |
| Execution.ErrorSaysWhat | internal/executor/executor.go:92-127 | the flag named is not allowed, the limit named is exceeded by the request or the case named |
| Execution.RunOne | internal/executor/executor.go:225-274 | the spec handed to the sandbox and the result made of its outcome |
| Execution.RunTest | internal/executor/executor.go:209-223 | a test that ended well is judged by its output, any other keeps its status |
| Execution.Executor.CheckRequest | internal/executor/executor.go:72-127 | the checks before a run and their order |
| Execution.Executor.RunBuild | internal/executor/executor.go:173-207 | the build spec, its default limit and the build status |
| Execution.Executor.RunAll | internal/executor/executor.go:162-166 | results and specs in the order of the test cases |
| Execution.Executor.RunAdmitted | internal/executor/executor.go:72-170 | the response, error and process specs of an admitted call |
| Execution.Executor.Run | internal/executor/executor.go:55-70 | turned away and counted when no slot is free; otherwise counted, measured, answered, and slot and in-flight given back |
| Execution.PrecheckExactly | internal/executor/executor.go:72-127 | a request passes all checks iff its language is known, sizes, names and flags are allowed, its limits fit and the job directory is ready |
| ExecutionFacts.ProcessStatusExactly | internal/executor/executor.go:255-263 | which process ends are timeouts, memory kills, runtime errors, internal errors and clean exits, and which reading wins |
| ExecutionFacts.CaseAcceptedExactly | internal/executor/executor.go:209-274 | a case is accepted iff its process exits with zero in time and what was captured of its output equals the expected one up to line endings and trailing blanks |
| ExecutionFacts.PassableExactly | internal/executor/executor.go:209-274 | some process passes a case iff the sandbox can start it and the shortest matching output fits under the output cap |
| ExecutionFacts.ResponseShape | internal/executor/executor.go:129-170 | every response without error: status = rollup, one result per case (one on the smoke path), not_executed iff the build failed and then everywhere |
| ExecutionFacts.RunByBuild | internal/executor/executor.go:129-150 | past the checks, a call is an error iff the build process breaks; otherwise its build has failed iff that process passes its deadline or ends with anything but zero, and there is a build report iff the language has a build |
| ExecutionFacts.LimitsHold | internal/executor/executor.go:225-250 | for every call: no process iff a check fails; the build alone if it does not work; no test process gets more time or memory than its language allows, the build exactly its own limits |
| ExecutionFacts.CallIsCutOff | internal/sandbox/sandbox.go:117 | the hard deadlines of every call that starts a process sum to at most the build limit + 2 s plus (limit + 2 s) per test process |
| ExecutionFacts.SmokeLimitsExactly | internal/executor/executor.go:153-167 | without test cases, two requests with limits that pass start the same processes iff the build does not work or the limits come to the same |
| ExecutionFacts.RequestLimitsIgnored | internal/executor/executor.go:153-167 | with a test case present, request limits that pass the check change nothing about the run |
| ProcessFacts.SandboxResultExactly | internal/sandbox/sandbox.go:60-189 | there is a result iff jail and command are named and the process has a wait status; each of its fields in terms of the process alone |
| ProcessFacts.CallsExactly | internal/executor/executor.go:152-166 | a call with a working build starts the build and then one process per case: its input, its own limits where positive and else the language's, command, arguments, output cap, user; without cases one on no input with the request's limits |
| ProcessFacts.BuildReportExactly | internal/executor/executor.go:190-206 | the build is ok iff its process runs, is in time and ends with zero; broken iff the sandbox cannot run it; its output and duration |
| ProcessFacts.BuildDecides | internal/executor/executor.go:129-150 | the build process is given the build's command, arguments and limits (30 s by default); a non-zero exit or a passed deadline means build_failed with every test not_executed and nothing else started |
| ProcessFacts.SmokeResultExactly | internal/executor/executor.go:153-161 | without test cases the one result is that of the one test process, and the status is its status |
| ProcessFacts.TestStatusExactly | internal/executor/executor.go:209-223 | the process decides; if it ended well, accepted iff the strict forms agree, wrong_output iff the tokens differ, whitespace mismatch otherwise |
| ProcessFacts.TestReportExactly | internal/executor/executor.go:251-274 | captured output and errors, exit code, signal, milliseconds and memory of a test result |
| JobHash.PollJob | CodeSumissionService/api/index.py:103-128 | a poll for a job reads the hash under "job:" and its id |
| JobHash.AssembleFields | internal/worker/worker.go:333-349 | the fields a status write sets for any arguments: always id, status and time, error iff its text is not empty, result iff there is one |
| JobHash.Poll | CodeSumissionService/api/index.py:103-128 | an empty hash reads as queued, otherwise the hash with its result decoded |
| Lifecycle.TerminalStatusHasPayload | internal/worker/worker.go:331-356 | in every run, faults included: DONE or TIMEOUT comes with a result that a poll sees decoded, ERROR with a non-empty error |
| Lifecycle.ErrorFieldExactly | internal/worker/worker.go:335-353 | an error (result) field is there iff an error (result) was reported since the last expiry, and holds what the last such report brought |
| Lifecycle.RunningMeansUnreported | internal/worker/worker.go:184-240 | in every run RUNNING names a handler that marked the job and whose report never reached the hash: it is at work, crashed or lost its report |
| Lifecycle.DeletedMeansTried | internal/worker/worker.go:165-168 | the message is deleted only after a handler tried to report |
| Lifecycle.PollGoesBackExactly | internal/worker/worker.go:184-188 | polled progress goes back iff the hash expires or a handler re-marks a reported job, which takes a second delivery |
| Lifecycle.NeverStuckRunning | internal/worker/worker.go:184-242 | without lost reports and crashes (lost marks, failed deletes, redelivery and expiry allowed) RUNNING means a handler is at work; with none left the job is terminal or expired |
| Lifecycle.LostReportStrandsJob | internal/worker/worker.go:234-242 | one delivery whose report is lost leaves a deleted message and a job RUNNING with nobody at work |
| Lifecycle.CrashStrandsJob | internal/worker/worker.go:184-242 | so do two overlapping deliveries with every write applied, if the second marks the job after the first has finished, and crashes |
| Lifecycle.CanStrandExactly | internal/worker/worker.go:184-242 | some run strands the job (RUNNING, message deleted, nobody at work) iff lost reports or crashes are permitted; all other faults always are |
| Lifecycle.StrandedLasts | internal/worker/worker.go:184-242 | only expiry or one more delivery can happen to a stranded job, and it says RUNNING until it expires or a report arrives |
| Lifecycle.StaleErrorSurvives | internal/worker/worker.go:335-353 | a redelivered job can be DONE with the error of an earlier delivery |
| Lifecycle.StaleErrorNeedsTwo | internal/worker/worker.go:335-353 | in every run, DONE or TIMEOUT with an error field names two different handlers whose reports arrived |
| Lifecycle.CanShowStaleErrorExactly | internal/worker/worker.go:335-353 | some run shows DONE or TIMEOUT with an error field iff redelivery is permitted; all other faults always are |
| Lifecycle.CanLoseAnswerExactly | internal/worker/worker.go:206-242 | some run ends with the message deleted and neither result nor error iff lost reports or expiry are permitted; all other faults always are |
| Lifecycle.CanLingerExactly | internal/worker/worker.go:241-243 | some run ends with a result reported, nobody at work and the message still there iff failed deletes or crashes are permitted |
| Lifecycle.DeletedJobHasAnswer | internal/worker/worker.go:206-242 | while reports reach an unexpired hash, a job whose message is gone has a result or an error, even across crashes |
| Submission.CollapseCases | CodeSumissionService/api/index.py:63-68 | the map built key by key |
| Submission.CreateJob | CodeSumissionService/api/index.py:43-95 | 422 iff source or cases are missing, 500 iff there is no queue, a null where a conversion needs a value, or a failed send; otherwise the queued job: lower-cased type and language, raw first input as stdin, collapsed cases (never empty), converted limits, defaults for absent fields |
| Submission.FormattedExactly | CodeSumissionService/api/index.py:67 | a key is the shortest text that starts with the input and ends in a newline |
| Submission.CollapseIsLastWins | CodeSumissionService/api/index.py:64-68 | every listed input is a key, with the expectation of its last occurrence |
| Submission.CollapseKeysAreListed | CodeSumissionService/api/index.py:64-68 | every key is a listed input, newline-terminated |
| QueueWorker.RoundIsNearest | internal/worker/worker.go:260-263 | seconds are rounded to the nearest integer, halves away from zero, alike on both sides of zero |
| QueueWorker.RequestExactly | internal/worker/worker.go:247-290 | which jobs are refused; the request of any other carries source and language, no flags, the rounded time and the memory limit (zero if absent) and the cases of its kind |
| QueueWorker.ReportExactly | internal/worker/worker.go:206-239 | the fields reported for a run: ERROR with the error's text, else TIMEOUT iff it exceeded its time and DONE otherwise, with every result beside its case and output verdicts taken back just for playground runs |
| QueueWorker.PollsAfterHandling | internal/worker/worker.go:333-356 | after a delivery a poll of its job sees the handler's writes, a poll of any other job what it saw before |
| QueueWorker.WalkCases | internal/worker/worker.go:278-284 | whatever the iteration order, one case per map entry |
| QueueWorker.MakeRequest | internal/worker/worker.go:247-290 | the request of a job or the reason for refusing it |
| QueueWorker.DowngradeTests | internal/worker/worker.go:215-220 | output verdicts overwritten in place, everything else kept |
| QueueWorker.DowngradeResponse | internal/worker/worker.go:214-225 | tests and status downgraded each for itself |
| QueueWorker.Label | internal/worker/worker.go:309-327 | each result with the test case at its index, or a panic when there are more results than cases |
| QueueWorker.Worker.WriteRedis | internal/worker/worker.go:333-356 | for any arguments, a write merges its fields into the hash under "job:" and the id, and no other job's hash changes; a lost one changes nothing |
| QueueWorker.Worker.DeleteMessage | internal/worker/worker.go:359-369 | removes just this message, if it has a receipt and the delete succeeds |
| QueueWorker.Worker.RunJob | internal/worker/worker.go:204-239 | runs the request and writes the report of the executor's answer, executor state restored |
| QueueWorker.Worker.ReportRun | internal/worker/worker.go:206-239 | the report written for a run, or a panic without a write |
| QueueWorker.Worker.HandleMessage | internal/worker/worker.go:168-243 | the hash under "job:" and the id after one delivery, every other job's hash untouched, executor state restored, message deleted unless relabelling panicked |
| WorkerFacts.PanicExactly | internal/worker/worker.go:309-323 | relabelling panics iff a "submit" job without test cases gets a slot, passes the checks and its build process ends well |
| WorkerFacts.NeverPanicsExactly | internal/worker/worker.go:309-323 | a job is safe in every walk order, configuration, registry and environment iff it is not a well-formed "submit" without test cases |
| WorkerFacts.SubmittedJobsNeverPanic | CodeSumissionService/api/index.py:47-68 | jobs of the front end never do |
| WorkerFacts.OverloadIsReported | internal/worker/worker.go:204-209 | a call turned away becomes an error report |
| WorkerFacts.JobLimitsOnlyAdmit | internal/worker/worker.go:260-284 | two jobs that differ only in limits that fit the language have the same outcome |
| WorkerFacts.DowngradeCommutesExactly | internal/worker/worker.go:211-225 | the downgraded status is the rollup of the downgraded tests iff a first output failure is followed by no other kind of failure, for failed builds too |
| WorkerFacts.PlaygroundMatchesSmoke | internal/worker/worker.go:268-273 | a "run" job: one result on its stdin, status = rollup, no output verdict, and the result of the smoke path for the same process |
| WorkerFacts.HandlerIsARun | internal/worker/worker.go:168-243 | a handler's effect is that of a run of the lifecycle with one more delivery |
| Judging.JudgedIsReported | internal/worker/worker.go:206-239 | a job counts as judged iff its handler has this labelled response to report |
| Judging.LabelsStayWithCases | internal/worker/worker.go:309-326 | position by position the labels are the input walked and its expectation |
| Judging.ResultsStayWithCases | internal/executor/executor.go:162-169 | each result is that of exactly the case it is labelled with, and the verdict is the first failure among them |
| Judging.LabelsAreTheMap | internal/worker/worker.go:278-284 | whatever the walk order, the labels are the map's pairs, each once |
| Judging.WalkOrderOnlyPermutes | internal/worker/worker.go:274-284 | under a deterministic sandbox two walks give the same labelled results up to order, the same acceptance and the same build failure, also when the build fails |
| Judging.AcceptedMeansSurvivorsPass | CodeSumissionService/api/index.py:64-68 | accepted iff it builds and every case that is the last with its input passes |
| Judging.AcceptedMeansAllPass | CodeSumissionService/api/index.py:64-68 | for lists whose equal inputs expect the same up to exactness: accepted iff it builds and every listed case passes |
| Judging.InconsistentListMisleads | CodeSumissionService/api/index.py:64-68 | for every other list whose kept expectations fit under the output cap some program is accepted although a listed case fails |
| Judging.AcceptedFitsCap | internal/sandbox/sandbox.go:134-139 | an accepted submission has only expectations that fit under the output cap |
| Judging.MisleadsExactly | CodeSumissionService/api/index.py:64-68 | some program is accepted although a listed case fails iff the list is inconsistent and its kept expectations fit under the output cap |
| Judging.PolledVerdict | CodeSumissionService/api/index.py:103-128 | from the submitted list to the poll, failed builds included: terminal status, labelled results covering the map once, build failure iff it does not build, acceptance iff it builds and all cases pass |
| WalkOrder.WalkStartingWith | internal/worker/worker.go:278-284 | for every failing entry of a job that builds there is a walk, judged as well, whose verdict is that entry's status |
| WalkOrder.VerdictOfWalksExactly | internal/worker/worker.go:274-284 | under a deterministic sandbox every walk of a judged job has the same verdict iff the build fails or all failing entries have one status |
| WalkOrder.TimeoutOfWalksExactly | internal/worker/worker.go:227-231 | likewise every walk ends in the same one of DONE and TIMEOUT iff the build fails or timeouts and other failures are not mixed |
| WalkOrder.WalkDecidesTimeout | internal/worker/worker.go:227-231 | any front-end job with two different inputs that passes the checks has a deterministic program with a walk reported as TIMEOUT and one reported as DONE |
| WalkOrder.OrderNeverMattersExactly | internal/worker/worker.go:274-284 | for such jobs no program's job status depends on the walk iff there is a single case |

## Left out

- HTTP routing, JSON and YAML decoding, logging, health and readiness, configuration, the load generator: no property of this kind.
- Processes, namespaces, files and signals: a sandboxed process is an oracle for the chunks it prints, its exit, elapsed time and deadline; failures of preparing the job directory are one input.
- Redis and SQS clients: a hash whose writes merge and may be lost, and a message that may be delivered any number of times; the pipelined expiry command only shows up as expiry at any time.
- Loading languages: a language definition always has a run phase, as loading guarantees; `JobHash` keeps the result as a value, without its JSON text.
- Widths: 64-bit overflow of counters, durations and limits; bytes versus code points in source and output sizes; invalid UTF-8.
- Wording of error messages beyond their never being empty, and the order in which the two limit fields are named.
- Stats.PercentileIndexInRange: rounding to a double is any function that keeps the order and keeps zero; which index a percentile gets beyond its range and order is not fixed.
- OrderStatistics.Sort: selection sort in the place of the library sort, with the same result.
- Execution.Executor.Run: one call from start to end; interleavings of calls are in `Admission`.
- Shutdown: polling loops, cancellation and draining of message handlers.
- Stale-directory sweeping and the other HTTP handlers.
