/** One queued job under at-least-once delivery: any number of handlers at once, each of which marks the
    job running, reports an outcome and deletes the message. Writes may be lost, handlers may crash and
    the hash may expire at any time. */
module Lifecycle {
  import opened Types
  import opened JobHash

  datatype Phase = Received | Marked | Reported | Finished | Crashed

  /** A handler: its phase, whether its running mark and its report reached the hash, and whether it got as
      far as trying to report. */
  datatype Handler = Handler(phase: Phase, marked: bool, tried: bool, reported: bool)

  /** A write that reached the hash. */
  datatype Entry = Entry(handler: nat, report: Report, now: int)

  /** `log` holds the writes applied since the hash last expired. */
  datatype State = State(hash: Hash, deleted: bool, handlers: map<nat, Handler>, log: seq<Entry>)

  datatype Step =
    | Deliver(h: nat)
    | Mark(h: nat, applied: bool, now: int)
    | Tell(h: nat, report: Report, applied: bool, now: int)
    | Delete(h: nat, ok: bool)
    | Crash(h: nat)
    | Expire

  const INIT := State(map[], false, map[], [])

  predicate In(s: State, h: nat, phase: Phase) {
    h in s.handlers && s.handlers[h].phase == phase
  }

  predicate Live(h: Handler) {
    h.phase != Finished && h.phase != Crashed
  }

  predicate Enabled(s: State, step: Step) {
    match step
    case Deliver(h) => h !in s.handlers
    case Mark(h, _, _) => In(s, h, Received)
    case Tell(h, report, _, _) => In(s, h, Marked) && report != Started
    case Delete(h, _) => In(s, h, Reported)
    case Crash(h) => h in s.handlers && Live(s.handlers[h])
    case Expire => true
  }

  function Write(jobId: string, s: State, h: nat, handler: Handler, report: Report, applied: bool, now: int): State {
    State(if applied then s.hash + FieldsOf(jobId, report, now) else s.hash, s.deleted, s.handlers[h := handler],
          if applied then s.log + [Entry(h, report, now)] else s.log)
  }

  function Apply(jobId: string, s: State, step: Step): State
    requires Enabled(s, step)
  {
    match step
    case Deliver(h) => State(s.hash, s.deleted, s.handlers[h := Handler(Received, false, false, false)], s.log)
    case Mark(h, applied, now) => Write(jobId, s, h, Handler(Marked, applied, false, false), Started, applied, now)
    case Tell(h, report, applied, now) =>
      Write(jobId, s, h, Handler(Reported, s.handlers[h].marked, true, applied), report, applied, now)
    case Delete(h, ok) => State(s.hash, s.deleted || ok, s.handlers[h := s.handlers[h].(phase := Finished)], s.log)
    case Crash(h) => State(s.hash, s.deleted, s.handlers[h := s.handlers[h].(phase := Crashed)], s.log)
    case Expire => State(map[], s.deleted, s.handlers, [])
  }

  ghost predicate Leads(jobId: string, s: State, steps: seq<Step>, t: State)
    decreases |steps|
  {
    if steps == [] then s == t
    else Enabled(s, steps[0]) && Leads(jobId, Apply(jobId, s, steps[0]), steps[1..], t)
  }

  // ----- What the hash holds -----

  /** The hash that a list of writes leaves. */
  function Merged(jobId: string, log: seq<Entry>): Hash {
    if log == [] then map[]
    else Merged(jobId, log[..|log| - 1]) + FieldsOf(jobId, log[|log| - 1].report, log[|log| - 1].now)
  }

  ghost predicate SomeErrored(log: seq<Entry>) {
    exists i | 0 <= i < |log| :: log[i].report.Errored?
  }

  ghost predicate SomeSucceeded(log: seq<Entry>) {
    exists i | 0 <= i < |log| :: log[i].report.Succeeded?
  }

  lemma SnocReports(log: seq<Entry>)
    requires log != []
    ensures var front, last := log[..|log| - 1], log[|log| - 1].report;
            && (SomeErrored(log) <==> SomeErrored(front) || last.Errored?)
            && (SomeSucceeded(log) <==> SomeSucceeded(front) || last.Succeeded?)
  {
    var front := log[..|log| - 1];
    assert forall i | 0 <= i < |front| :: front[i] == log[i];
  }

  /** Status and payload always come from the same write; older payloads of the other kind stay behind. */
  lemma {:induction false} MergedFields(jobId: string, log: seq<Entry>)
    ensures var hash := Merged(jobId, log);
            && (hash == map[] <==> log == [])
            && (StatusField in hash <==> log != [])
            && (ErrorField in hash <==> SomeErrored(log))
            && (ResultField in hash <==> SomeSucceeded(log))
    ensures log != [] ==>
              var hash, last := Merged(jobId, log), log[|log| - 1].report;
              && hash[StatusField] == StatusValue(StatusOf(last))
              && (last.Succeeded? ==> ResultField in hash && hash[ResultField] == Encoded(last.result))
              && (last.Errored? ==> ErrorField in hash && hash[ErrorField] == Text(last.text))
    decreases |log|
  {
    if log != [] {
      MergedFields(jobId, log[..|log| - 1]);
      SnocReports(log);
      assert JobIdField in Merged(jobId, log);
    }
  }

  /** The `i`-th write is the last one of its kind. */
  predicate LastErrored(log: seq<Entry>, i: int) {
    0 <= i < |log| && log[i].report.Errored? && forall j | i < j < |log| :: !log[j].report.Errored?
  }

  predicate LastSucceeded(log: seq<Entry>, i: int) {
    0 <= i < |log| && log[i].report.Succeeded? && forall j | i < j < |log| :: !log[j].report.Succeeded?
  }

  lemma WriteError(jobId: string, hash: Hash, report: Report, now: int)
    requires report.Errored? || ErrorField in hash
    ensures var after := hash + FieldsOf(jobId, report, now);
            ErrorField in after && after[ErrorField] == if report.Errored? then Text(report.text) else hash[ErrorField]
  {
  }

  lemma WriteResult(jobId: string, hash: Hash, report: Report, now: int)
    requires report.Succeeded? || ResultField in hash
    ensures var after := hash + FieldsOf(jobId, report, now);
            ResultField in after && after[ResultField] == if report.Succeeded? then Encoded(report.result) else hash[ResultField]
  {
  }

  /** Each payload field holds what the last report of its kind brought, whatever was written since. */
  lemma {:induction false} ErrorIsLatest(jobId: string, log: seq<Entry>, i: int)
    requires LastErrored(log, i)
    ensures ErrorField in Merged(jobId, log) && Merged(jobId, log)[ErrorField] == Text(log[i].report.text)
    decreases |log|
  {
    var front, last := log[..|log| - 1], log[|log| - 1];
    if i < |front| {
      assert front[i] == log[i] && LastErrored(front, i);
      ErrorIsLatest(jobId, front, i);
    }
    WriteError(jobId, Merged(jobId, front), last.report, last.now);
  }

  lemma {:induction false} ResultIsLatest(jobId: string, log: seq<Entry>, i: int)
    requires LastSucceeded(log, i)
    ensures ResultField in Merged(jobId, log) && Merged(jobId, log)[ResultField] == Encoded(log[i].report.result)
    decreases |log|
  {
    var front, last := log[..|log| - 1], log[|log| - 1];
    if i < |front| {
      assert front[i] == log[i] && LastSucceeded(front, i);
      ResultIsLatest(jobId, front, i);
    }
    WriteResult(jobId, Merged(jobId, front), last.report, last.now);
  }

  // ----- The invariant of every run -----

  ghost predicate EntrySound(s: State, e: Entry) {
    && e.handler in s.handlers
    && (e.report == Started ==> s.handlers[e.handler].marked)
    && (e.report != Started ==> s.handlers[e.handler].reported)
  }

  ghost predicate HandlerSound(h: Handler) {
    && (h.phase == Received ==> !h.marked)
    && (h.phase == Received || h.phase == Marked ==> !h.tried)
    && (h.phase == Reported || h.phase == Finished ==> h.tried)
    && (h.reported ==> h.tried)
  }

  ghost predicate SomeTried(s: State) {
    exists h :: h in s.handlers && s.handlers[h].tried
  }

  /** What holds of the handlers and of the writes that arrived, whatever their fields. */
  ghost predicate Sound(s: State) {
    && (forall i | 0 <= i < |s.log| :: EntrySound(s, s.log[i]))
    && (s.log != [] && s.log[|s.log| - 1].report == Started ==> !s.handlers[s.log[|s.log| - 1].handler].reported)
    && (forall h | h in s.handlers :: HandlerSound(s.handlers[h]))
    && (s.deleted ==> SomeTried(s))
  }

  ghost predicate Inv(jobId: string, s: State) {
    s.hash == Merged(jobId, s.log) && Sound(s)
  }

  lemma MergedSnoc(jobId: string, log: seq<Entry>, e: Entry)
    ensures Merged(jobId, log + [e]) == Merged(jobId, log) + FieldsOf(jobId, e.report, e.now)
  {
    assert (log + [e])[..|log|] == log;
  }

  lemma WriteKeepsSound(s: State, t: State, h: nat, handler: Handler, e: Entry, applied: bool)
    requires Sound(s) && h in s.handlers && HandlerSound(handler) && e.handler == h
    requires s.handlers[h].marked ==> handler.marked
    requires s.handlers[h].tried ==> handler.tried
    requires !s.handlers[h].reported
    requires e.report == Started ==> handler.marked == applied && !handler.reported
    requires e.report != Started ==> handler.reported == applied
    requires t.handlers == s.handlers[h := handler] && t.deleted == s.deleted
    requires t.log == if applied then s.log + [e] else s.log
    ensures Sound(t)
  {
    forall i | 0 <= i < |t.log| ensures EntrySound(t, t.log[i]) {
      if i < |s.log| {
        assert EntrySound(s, s.log[i]);
      }
    }
    if s.deleted {
      var k :| k in s.handlers && s.handlers[k].tried;
      assert t.handlers[k].tried;
    }
  }

  lemma WriteKeepsInv(jobId: string, s: State, h: nat, handler: Handler, report: Report, applied: bool, now: int)
    requires Inv(jobId, s) && h in s.handlers && HandlerSound(handler)
    requires s.handlers[h].marked ==> handler.marked
    requires s.handlers[h].tried ==> handler.tried
    requires !s.handlers[h].reported
    requires report == Started ==> handler.marked == applied && !handler.reported
    requires report != Started ==> handler.reported == applied
    ensures Inv(jobId, Write(jobId, s, h, handler, report, applied, now))
  {
    var t := Write(jobId, s, h, handler, report, applied, now);
    MergedSnoc(jobId, s.log, Entry(h, report, now));
    WriteKeepsSound(s, t, h, handler, Entry(h, report, now), applied);
  }

  lemma MoveKeepsInv(jobId: string, s: State, h: nat, phase: Phase, deleted: bool)
    requires Inv(jobId, s) && h in s.handlers && HandlerSound(s.handlers[h].(phase := phase))
    requires deleted ==> s.deleted || s.handlers[h].tried
    ensures Inv(jobId, State(s.hash, deleted, s.handlers[h := s.handlers[h].(phase := phase)], s.log))
  {
    var t := State(s.hash, deleted, s.handlers[h := s.handlers[h].(phase := phase)], s.log);
    forall i | 0 <= i < |t.log| ensures EntrySound(t, t.log[i]) {
      assert EntrySound(s, s.log[i]);
    }
    if deleted {
      var k :| k in s.handlers && s.handlers[k].tried;
      assert t.handlers[k].tried;
    }
  }

  lemma StepKeepsInv(jobId: string, s: State, step: Step)
    requires Inv(jobId, s) && Enabled(s, step)
    ensures Inv(jobId, Apply(jobId, s, step))
  {
    match step
    case Deliver(h) =>
      var t := Apply(jobId, s, step);
      forall i | 0 <= i < |t.log| ensures EntrySound(t, t.log[i]) {
        assert EntrySound(s, s.log[i]);
      }
      if s.deleted {
        var k :| k in s.handlers && s.handlers[k].tried;
        assert t.handlers[k].tried;
      }
    case Mark(h, applied, now) =>
      WriteKeepsInv(jobId, s, h, Handler(Marked, applied, false, false), Started, applied, now);
    case Tell(h, report, applied, now) =>
      WriteKeepsInv(jobId, s, h, Handler(Reported, s.handlers[h].marked, true, applied), report, applied, now);
    case Delete(h, ok) =>
      MoveKeepsInv(jobId, s, h, Finished, s.deleted || ok);
    case Crash(h) =>
      MoveKeepsInv(jobId, s, h, Crashed, s.deleted);
    case Expire =>
      var t := Apply(jobId, s, step);
      assert t.handlers == s.handlers;
  }

  lemma {:induction false} RunKeepsInv(jobId: string, s: State, steps: seq<Step>, t: State)
    requires Inv(jobId, s) && Leads(jobId, s, steps, t)
    ensures Inv(jobId, t)
    decreases |steps|
  {
    if steps != [] {
      StepKeepsInv(jobId, s, steps[0]);
      RunKeepsInv(jobId, Apply(jobId, s, steps[0]), steps[1..], t);
    }
  }

  predicate HasStatus(hash: Hash, status: JobStatus) {
    StatusField in hash && hash[StatusField] == StatusValue(status)
  }

  /** In every run, lost writes, crashes, redelivery and expiry included: a hash with a terminal status has
      the payload that goes with it, so a poll never finds a verdict without a result. */
  lemma TerminalStatusHasPayload(jobId: string, steps: seq<Step>, s: State)
    requires Leads(jobId, INIT, steps, s)
    ensures HasStatus(s.hash, Done) || HasStatus(s.hash, Timeout) ==>
              && ResultField in s.hash && s.hash[ResultField].Encoded?
              && ViewOf(s.hash).Found? && ViewOf(s.hash).fields[ResultField] == Decoded(s.hash[ResultField].result)
    ensures HasStatus(s.hash, Error) ==> ErrorField in s.hash && s.hash[ErrorField].Text? && s.hash[ErrorField].text != ""
    ensures ViewOf(s.hash) == Queued <==> StatusField !in s.hash
  {
    RunKeepsInv(jobId, INIT, steps, s);
    MergedFields(jobId, s.log);
  }

  /** An error field says that some handler reported an error since the hash last expired, whatever the
      status says now; it holds the text of the last such report. Likewise for the result. */
  lemma ErrorFieldExactly(jobId: string, steps: seq<Step>, s: State)
    requires Leads(jobId, INIT, steps, s)
    ensures ErrorField in s.hash <==> SomeErrored(s.log)
    ensures ResultField in s.hash <==> SomeSucceeded(s.log)
    ensures forall i | LastErrored(s.log, i) :: ErrorField in s.hash && s.hash[ErrorField] == Text(s.log[i].report.text)
    ensures forall i | LastSucceeded(s.log, i) :: ResultField in s.hash && s.hash[ResultField] == Encoded(s.log[i].report.result)
  {
    RunKeepsInv(jobId, INIT, steps, s);
    MergedFields(jobId, s.log);
    forall i | LastErrored(s.log, i) ensures ErrorField in s.hash && s.hash[ErrorField] == Text(s.log[i].report.text) {
      ErrorIsLatest(jobId, s.log, i);
    }
    forall i | LastSucceeded(s.log, i)
      ensures ResultField in s.hash && s.hash[ResultField] == Encoded(s.log[i].report.result)
    {
      ResultIsLatest(jobId, s.log, i);
    }
  }

  /** In every run, a hash that says RUNNING names a handler that marked the job and whose report has not
      reached the hash: it is still at work, it crashed, or its report was lost. */
  lemma RunningMeansUnreported(jobId: string, steps: seq<Step>, s: State) returns (h: nat)
    requires Leads(jobId, INIT, steps, s) && HasStatus(s.hash, Running)
    ensures h in s.handlers && s.handlers[h].marked && !s.handlers[h].reported
    ensures In(s, h, Marked) || In(s, h, Crashed) || s.handlers[h].tried
  {
    RunKeepsInv(jobId, INIT, steps, s);
    MergedFields(jobId, s.log);
    h := s.log[|s.log| - 1].handler;
    assert EntrySound(s, s.log[|s.log| - 1]);
    assert HandlerSound(s.handlers[h]);
  }

  /** The message is deleted only after some handler has tried to report. */
  lemma DeletedMeansTried(jobId: string, steps: seq<Step>, s: State)
    requires Leads(jobId, INIT, steps, s) && s.deleted
    ensures SomeTried(s)
  {
    RunKeepsInv(jobId, INIT, steps, s);
  }

  /** How far along a poll says the job is. */
  function Progress(hash: Hash): nat {
    if StatusField !in hash then 0 else if HasStatus(hash, Running) then 1 else 2
  }

  /** A write that reaches the hash sets the progress to what it reports. */
  lemma WriteProgress(jobId: string, hash: Hash, report: Report, now: int)
    ensures Progress(hash + FieldsOf(jobId, report, now)) == if report == Started then 1 else 2
  {
  }

  lemma StepProgress(jobId: string, s: State, step: Step)
    requires Enabled(s, step)
    ensures step.Expire? ==> Progress(Apply(jobId, s, step).hash) == 0
    ensures step.Mark? && step.applied ==> Progress(Apply(jobId, s, step).hash) == 1
    ensures step.Tell? && step.applied ==> Progress(Apply(jobId, s, step).hash) == 2
    ensures !step.Expire? && !((step.Mark? || step.Tell?) && step.applied) ==> Apply(jobId, s, step).hash == s.hash
  {
    match step
    case Mark(_, _, now) => WriteProgress(jobId, s.hash, Started, now);
    case Tell(_, report, _, now) => WriteProgress(jobId, s.hash, report, now);
    case _ =>
  }

  /** A terminal status was reported by a handler that is past its mark. */
  lemma TerminalNamesReporter(jobId: string, s: State) returns (h: nat)
    requires Inv(jobId, s) && Progress(s.hash) == 2
    ensures h in s.handlers && s.handlers[h].reported && s.handlers[h].phase != Received
  {
    MergedFields(jobId, s.log);
    h := s.log[|s.log| - 1].handler;
    assert EntrySound(s, s.log[|s.log| - 1]);
    assert HandlerSound(s.handlers[h]);
  }

  /** What a poll sees goes backwards exactly when the hash expires or a handler marks the job running after
      another delivery's handler has already reported. */
  lemma PollGoesBackExactly(jobId: string, steps: seq<Step>, s: State, step: Step)
    requires Leads(jobId, INIT, steps, s) && Enabled(s, step)
    ensures Progress(Apply(jobId, s, step).hash) < Progress(s.hash)
            <==> (step.Expire? && s.hash != map[]) || (step.Mark? && step.applied && Progress(s.hash) == 2)
    ensures step.Mark? && Progress(s.hash) == 2 ==>
              exists h :: h != step.h && h in s.handlers && s.handlers[h].reported
  {
    RunKeepsInv(jobId, INIT, steps, s);
    MergedFields(jobId, s.log);
    StepProgress(jobId, s, step);
    if Progress(s.hash) == 2 {
      var h := TerminalNamesReporter(jobId, s);
      assert step.Mark? ==> h != step.h;
    }
  }

  // ----- Which faults strand a job -----

  /** Whether a step stays within the permitted faults. Lost running marks, failed deletes, redelivery and expiry
      always do. */
  predicate Permitted(step: Step, lostReports: bool, crashes: bool) {
    && (step.Tell? && !step.applied ==> lostReports)
    && (step.Crash? ==> crashes)
  }

  ghost predicate RunWithin(jobId: string, steps: seq<Step>, s: State, lostReports: bool, crashes: bool) {
    && Leads(jobId, INIT, steps, s)
    && forall i | 0 <= i < |steps| :: Permitted(steps[i], lostReports, crashes)
  }

  ghost predicate NobodyLive(s: State) {
    forall h | h in s.handlers :: !Live(s.handlers[h])
  }

  /** The job says RUNNING, its message is gone and nobody is at work. */
  ghost predicate Stranded(s: State) {
    s.deleted && HasStatus(s.hash, Running) && NobodyLive(s)
  }

  ghost predicate Healthy(s: State) {
    forall h | h in s.handlers :: HealthyHandler(s.handlers[h])
  }

  predicate HealthyHandler(h: Handler) {
    && h.phase != Crashed
    && (h.phase == Reported || h.phase == Finished ==> h.reported)
  }

  lemma {:induction false} RunStaysHealthy(jobId: string, s: State, steps: seq<Step>, t: State)
    requires Healthy(s) && Leads(jobId, s, steps, t)
    requires forall i | 0 <= i < |steps| :: Permitted(steps[i], false, false)
    ensures Healthy(t)
    decreases |steps|
  {
    if steps != [] {
      assert Permitted(steps[0], false, false);
      StepStaysHealthy(jobId, s, steps[0]);
      RunStaysHealthy(jobId, Apply(jobId, s, steps[0]), steps[1..], t);
    }
  }

  lemma StepStaysHealthy(jobId: string, s: State, step: Step)
    requires Healthy(s) && Enabled(s, step) && Permitted(step, false, false)
    ensures Healthy(Apply(jobId, s, step))
  {
    var t := Apply(jobId, s, step);
    forall h | h in t.handlers ensures HealthyHandler(t.handlers[h]) {
      if h in s.handlers {
        assert HealthyHandler(s.handlers[h]);
      }
    }
  }

  /** As long as no report is lost and no handler crashes, RUNNING means that a handler is at work between its
      mark and its report; so with no handler left the job has a terminal status or no hash at all. This
      holds for any number of overlapping deliveries, and across lost marks, failed deletes and expiry. */
  lemma NeverStuckRunning(jobId: string, steps: seq<Step>, s: State)
    requires RunWithin(jobId, steps, s, false, false)
    ensures HasStatus(s.hash, Running) ==> exists h :: In(s, h, Marked)
    ensures NobodyLive(s) ==>
              s.hash == map[] || HasStatus(s.hash, Done) || HasStatus(s.hash, Timeout) || HasStatus(s.hash, Error)
  {
    RunKeepsInv(jobId, INIT, steps, s);
    MergedFields(jobId, s.log);
    RunStaysHealthy(jobId, INIT, steps, s);
    if HasStatus(s.hash, Running) {
      var h := RunningMeansUnreported(jobId, steps, s);
      assert HealthyHandler(s.handlers[h]) && HandlerSound(s.handlers[h]);
      assert In(s, h, Marked);
    }
  }

  lemma Snoc(jobId: string, s: State, steps: seq<Step>, t: State, step: Step)
    requires Leads(jobId, s, steps, t) && Enabled(t, step)
    ensures Leads(jobId, s, steps + [step], Apply(jobId, t, step))
    decreases |steps|
  {
    if steps == [] {
      assert ([] + [step])[1..] == [];
    } else {
      assert (steps + [step])[1..] == steps[1..] + [step];
      Snoc(jobId, Apply(jobId, s, steps[0]), steps[1..], t, step);
    }
  }

  lemma Extend(jobId: string, steps: seq<Step>, s: State, step: Step, lostReports: bool, crashes: bool)
    returns (more: seq<Step>, t: State)
    requires RunWithin(jobId, steps, s, lostReports, crashes) && Enabled(s, step) && Permitted(step, lostReports, crashes)
    ensures RunWithin(jobId, more, t, lostReports, crashes) && more == steps + [step] && t == Apply(jobId, s, step)
  {
    Snoc(jobId, INIT, steps, s, step);
    more, t := steps + [step], Apply(jobId, s, step);
  }

  /** A lost report strands the job: the message is deleted all the same. */
  lemma LostReportStrandsJob(jobId: string, report: Report) returns (steps: seq<Step>, s: State)
    requires report != Started
    ensures steps == [Deliver(0), Mark(0, true, 0), Tell(0, report, false, 0), Delete(0, true)]
    ensures RunWithin(jobId, steps, s, true, false) && Stranded(s) && s.log == [Entry(0, Started, 0)]
  {
    assert Leads(jobId, INIT, [], INIT);
    steps, s := Extend(jobId, [], INIT, Deliver(0), true, false);
    StepProgress(jobId, s, Mark(0, true, 0));
    steps, s := Extend(jobId, steps, s, Mark(0, true, 0), true, false);
    steps, s := Extend(jobId, steps, s, Tell(0, report, false, 0), true, false);
    steps, s := Extend(jobId, steps, s, Delete(0, true), true, false);
  }

  /** Two overlapping deliveries, of which the first reports and deletes the message. */
  lemma FirstReports(jobId: string, report: Report) returns (steps: seq<Step>, s: State)
    requires report != Started
    ensures steps == [Deliver(0), Deliver(1), Mark(0, true, 0), Tell(0, report, true, 0), Delete(0, true)]
    ensures RunWithin(jobId, steps, s, false, true) && s.deleted
    ensures s.handlers == map[0 := Handler(Finished, true, true, true), 1 := Handler(Received, false, false, false)]
  {
    assert Leads(jobId, INIT, [], INIT);
    steps, s := Extend(jobId, [], INIT, Deliver(0), false, true);
    steps, s := Extend(jobId, steps, s, Deliver(1), false, true);
    steps, s := Extend(jobId, steps, s, Mark(0, true, 0), false, true);
    steps, s := Extend(jobId, steps, s, Tell(0, report, true, 0), false, true);
    steps, s := Extend(jobId, steps, s, Delete(0, true), false, true);
  }

  /** A crash strands the job too, although every write arrives: the second of two overlapping deliveries marks
      the job after the first one has reported and deleted the message, and crashes. */
  lemma CrashStrandsJob(jobId: string, report: Report) returns (steps: seq<Step>, s: State)
    requires report != Started
    ensures steps == [Deliver(0), Deliver(1), Mark(0, true, 0), Tell(0, report, true, 0), Delete(0, true),
                      Mark(1, true, 0), Crash(1)]
    ensures RunWithin(jobId, steps, s, false, true) && Stranded(s)
  {
    steps, s := FirstReports(jobId, report);
    StepProgress(jobId, s, Mark(1, true, 0));
    steps, s := Extend(jobId, steps, s, Mark(1, true, 0), false, true);
    steps, s := Extend(jobId, steps, s, Crash(1), false, true);
  }

  /** Some run within the permitted faults ends with the job stranded. */
  ghost predicate CanStrand(jobId: string, lostReports: bool, crashes: bool) {
    exists steps, s :: RunWithin(jobId, steps, s, lostReports, crashes) && Stranded(s)
  }

  /** Of all the faults exactly two can strand a job, each on its own: losing a report and crashing. */
  lemma CanStrandExactly(jobId: string, lostReports: bool, crashes: bool)
    ensures CanStrand(jobId, lostReports, crashes) <==> lostReports || crashes
  {
    if lostReports {
      var steps, s := LostReportStrandsJob(jobId, Errored("e"));
      assert RunWithin(jobId, steps, s, lostReports, crashes);
    } else if crashes {
      var steps, s := CrashStrandsJob(jobId, Errored("e"));
      assert RunWithin(jobId, steps, s, lostReports, crashes);
    } else {
      forall steps, s | RunWithin(jobId, steps, s, false, false) ensures !Stranded(s) {
        NeverStuckRunning(jobId, steps, s);
      }
    }
  }

  /** A stranded job is freed only from outside: nothing can happen to it but expiry or one more delivery, and
      it says RUNNING until the hash expires or some delivery's report arrives. */
  lemma StrandedLasts(jobId: string, s: State, steps: seq<Step>, t: State)
    requires Stranded(s) && Leads(jobId, s, steps, t)
    ensures steps != [] ==> steps[0].Deliver? || steps[0].Expire?
    ensures HasStatus(t.hash, Running) || exists i | 0 <= i < |steps| :: Frees(steps[i])
  {
    if !exists i | 0 <= i < |steps| :: Frees(steps[i]) {
      RunningLasts(jobId, s, steps, t);
    }
  }

  predicate Frees(step: Step) {
    step.Expire? || (step.Tell? && step.applied)
  }

  lemma {:induction false} RunningLasts(jobId: string, s: State, steps: seq<Step>, t: State)
    requires HasStatus(s.hash, Running) && Leads(jobId, s, steps, t)
    requires forall i | 0 <= i < |steps| :: !Frees(steps[i])
    ensures HasStatus(t.hash, Running)
    decreases |steps|
  {
    if steps != [] {
      assert !Frees(steps[0]);
      StepProgress(jobId, s, steps[0]);
      RunningLasts(jobId, Apply(jobId, s, steps[0]), steps[1..], t);
    }
  }

  // ----- Handlers from start to end -----

  /** One handler from delivery to the end of its message, from a state that knows nothing of it. */
  lemma HandleOnce(jobId: string, steps: seq<Step>, s: State, h: nat, mark: bool, markTime: int,
                   report: Report, tell: bool, tellTime: int, ok: bool)
    returns (more: seq<Step>, t: State)
    requires Leads(jobId, INIT, steps, s) && h !in s.handlers && report != Started
    ensures Leads(jobId, INIT, more, t) && t.deleted == (s.deleted || ok)
    ensures var marked := if mark then s.hash + FieldsOf(jobId, Started, markTime) else s.hash;
            t.hash == if tell then marked + FieldsOf(jobId, report, tellTime) else marked
    ensures t.handlers == s.handlers[h := Handler(Finished, mark, true, tell)]
  {
    more, t := MarkOnce(jobId, steps, s, h, mark, markTime);
    more, t := ReportOnce(jobId, more, t, h, report, tell, tellTime, ok);
  }

  lemma ReportOnce(jobId: string, steps: seq<Step>, s: State, h: nat, report: Report, tell: bool, tellTime: int, ok: bool)
    returns (more: seq<Step>, t: State)
    requires Leads(jobId, INIT, steps, s) && In(s, h, Marked) && report != Started
    ensures Leads(jobId, INIT, more, t) && t.deleted == (s.deleted || ok)
    ensures t.hash == if tell then s.hash + FieldsOf(jobId, report, tellTime) else s.hash
    ensures t.handlers == s.handlers[h := Handler(Finished, s.handlers[h].marked, true, tell)]
  {
    var step, last := Tell(h, report, tell, tellTime), Delete(h, ok);
    Snoc(jobId, INIT, steps, s, step);
    more, t := steps + [step], Apply(jobId, s, step);
    Snoc(jobId, INIT, more, t, last);
    more, t := more + [last], Apply(jobId, t, last);
  }

  lemma MarkOnce(jobId: string, steps: seq<Step>, s: State, h: nat, mark: bool, markTime: int)
    returns (more: seq<Step>, t: State)
    requires Leads(jobId, INIT, steps, s) && h !in s.handlers
    ensures Leads(jobId, INIT, more, t) && t.deleted == s.deleted && more == steps + [Deliver(h), Mark(h, mark, markTime)]
    ensures t.hash == if mark then s.hash + FieldsOf(jobId, Started, markTime) else s.hash
    ensures t.handlers == s.handlers[h := Handler(Marked, mark, false, false)]
  {
    var step := Mark(h, mark, markTime);
    Snoc(jobId, INIT, steps, s, Deliver(h));
    more, t := steps + [Deliver(h)], Apply(jobId, s, Deliver(h));
    Snoc(jobId, INIT, more, t, step);
    more, t := more + [step], Apply(jobId, t, step);
  }

  lemma CrashOnce(jobId: string, steps: seq<Step>, s: State, h: nat, mark: bool, markTime: int)
    returns (more: seq<Step>, t: State)
    requires Leads(jobId, INIT, steps, s) && h !in s.handlers
    ensures Leads(jobId, INIT, more, t) && t.deleted == s.deleted
    ensures t.hash == if mark then s.hash + FieldsOf(jobId, Started, markTime) else s.hash
    ensures t.handlers == s.handlers[h := Handler(Crashed, mark, false, false)]
  {
    more, t := MarkOnce(jobId, steps, s, h, mark, markTime);
    Snoc(jobId, INIT, more, t, Crash(h));
    more, t := more + [Crash(h)], Apply(jobId, t, Crash(h));
  }

  /** A redelivered job can be DONE and still show the error of an earlier delivery. */
  lemma StaleErrorSurvives(jobId: string, text: Message, result: LabelledResponse) returns (steps: seq<Step>, s: State)
    ensures Leads(jobId, INIT, steps, s) && HasStatus(s.hash, Done)
    ensures ErrorField in s.hash && s.hash[ErrorField] == Text(text) && ResultField in s.hash
  {
    assert Leads(jobId, INIT, [], INIT);
    steps, s := HandleOnce(jobId, [], INIT, 0, true, 0, Errored(text), true, 0, false);
    steps, s := HandleOnce(jobId, steps, s, 1, true, 0, Succeeded(false, result), true, 0, true);
  }

  /** No handler reports twice. */
  ghost predicate ReportsOnce(log: seq<Entry>) {
    forall i, j | 0 <= i < j < |log| && log[i].report != Started && log[j].report != Started ::
      log[i].handler != log[j].handler
  }

  lemma StepReportsOnce(jobId: string, s: State, step: Step)
    requires Sound(s) && ReportsOnce(s.log) && Enabled(s, step)
    ensures ReportsOnce(Apply(jobId, s, step).log)
  {
    if step.Tell? && step.applied {
      assert HandlerSound(s.handlers[step.h]);
      forall i | 0 <= i < |s.log| && s.log[i].report != Started ensures s.log[i].handler != step.h {
        assert EntrySound(s, s.log[i]);
      }
    }
  }

  lemma {:induction false} RunReportsOnce(jobId: string, s: State, steps: seq<Step>, t: State)
    requires Inv(jobId, s) && ReportsOnce(s.log) && Leads(jobId, s, steps, t)
    ensures ReportsOnce(t.log)
    decreases |steps|
  {
    if steps != [] {
      StepKeepsInv(jobId, s, steps[0]);
      StepReportsOnce(jobId, s, steps[0]);
      RunReportsOnce(jobId, Apply(jobId, s, steps[0]), steps[1..], t);
    }
  }

  /** The status says that the job went well while an error is still shown. */
  predicate ShowsStaleError(s: State) {
    (HasStatus(s.hash, Done) || HasStatus(s.hash, Timeout)) && ErrorField in s.hash
  }

  lemma StaleErrorInLog(jobId: string, s: State) returns (i: nat)
    requires Inv(jobId, s) && ShowsStaleError(s)
    ensures i < |s.log| && s.log[i].report.Errored? && s.log[|s.log| - 1].report.Succeeded?
  {
    MergedFields(jobId, s.log);
    i :| 0 <= i < |s.log| && s.log[i].report.Errored?;
  }

  /** A stale error takes two deliveries that both report: the last write and an error of another handler. */
  lemma StaleErrorNeedsTwo(jobId: string, steps: seq<Step>, s: State) returns (g: nat, h: nat)
    requires Leads(jobId, INIT, steps, s) && ShowsStaleError(s)
    ensures g != h && g in s.handlers && h in s.handlers && s.handlers[g].reported && s.handlers[h].reported
  {
    RunKeepsInv(jobId, INIT, steps, s);
    RunReportsOnce(jobId, INIT, steps, s);
    var i := StaleErrorInLog(jobId, s);
    g, h := DifferentReporters(s, i, |s.log| - 1);
  }

  lemma DifferentReporters(s: State, i: nat, j: nat) returns (g: nat, h: nat)
    requires Sound(s) && ReportsOnce(s.log) && i < |s.log| && j < |s.log|
    requires s.log[i].report.Errored? && s.log[j].report.Succeeded?
    ensures g != h && g in s.handlers && h in s.handlers && s.handlers[g].reported && s.handlers[h].reported
  {
    assert EntrySound(s, s.log[i]) && EntrySound(s, s.log[j]);
    g, h := s.log[i].handler, s.log[j].handler;
  }

  /** Some run, with at most one delivery unless redelivery is permitted, shows a stale error. Lost writes, failed
      deletes, crashes and expiry are always permitted. */
  ghost predicate CanShowStaleError(jobId: string, redelivery: bool) {
    exists steps, s :: Leads(jobId, INIT, steps, s) && (redelivery || |s.handlers.Keys| <= 1) && ShowsStaleError(s)
  }

  /** Of all the faults it is redelivery, and nothing else, that lets a stale error show. */
  lemma CanShowStaleErrorExactly(jobId: string, redelivery: bool)
    ensures CanShowStaleError(jobId, redelivery) <==> redelivery
  {
    if redelivery {
      var steps, s := StaleErrorSurvives(jobId, "e", LabelledResponse(Accepted, None, []));
      assert ShowsStaleError(s);
    } else {
      forall steps, s | Leads(jobId, INIT, steps, s) && |s.handlers.Keys| <= 1 ensures !ShowsStaleError(s) {
        if ShowsStaleError(s) {
          var g, h := StaleErrorNeedsTwo(jobId, steps, s);
          PairInSmallSet(s.handlers.Keys, g, h);
        }
      }
    }
  }

  lemma PairInSmallSet(keys: set<nat>, g: nat, h: nat)
    requires g in keys && h in keys && g != h
    ensures |keys| >= 2
  {
    assert |keys - {g}| == |keys| - 1 && h in keys - {g};
  }

  // ----- A deleted message leaves an answer -----

  predicate KeepsAnswers(step: Step, lostReports: bool, expiry: bool) {
    && (step.Tell? && !step.applied ==> lostReports)
    && (step.Expire? ==> expiry)
  }

  ghost predicate Answered(s: State) {
    forall h | h in s.handlers && s.handlers[h].tried :: exists i | 0 <= i < |s.log| :: Answers(s.log[i], h)
  }

  predicate Answers(e: Entry, h: nat) {
    e.handler == h && e.report != Started
  }

  lemma StepStaysAnswered(jobId: string, s: State, step: Step)
    requires Inv(jobId, s) && Answered(s) && Enabled(s, step) && KeepsAnswers(step, false, false)
    ensures Answered(Apply(jobId, s, step))
  {
    var t := Apply(jobId, s, step);
    forall h | h in t.handlers && t.handlers[h].tried
      ensures exists i | 0 <= i < |t.log| :: Answers(t.log[i], h)
    {
      if step.Tell? && step.h == h {
        assert Answers(t.log[|t.log| - 1], h);
      } else {
        var i :| 0 <= i < |s.log| && Answers(s.log[i], h);
        assert Answers(t.log[i], h);
      }
    }
  }

  lemma {:induction false} RunStaysAnswered(jobId: string, s: State, steps: seq<Step>, t: State)
    requires Inv(jobId, s) && Answered(s) && Leads(jobId, s, steps, t)
    requires forall i | 0 <= i < |steps| :: KeepsAnswers(steps[i], false, false)
    ensures Answered(t)
    decreases |steps|
  {
    if steps != [] {
      assert KeepsAnswers(steps[0], false, false);
      StepKeepsInv(jobId, s, steps[0]);
      StepStaysAnswered(jobId, s, steps[0]);
      RunStaysAnswered(jobId, Apply(jobId, s, steps[0]), steps[1..], t);
    }
  }

  /** No job is lost: while reports reach the hash and it has not expired, a job whose message is gone has a
      result or an error to show, even if handlers crash and running marks are lost or come late. */
  lemma DeletedJobHasAnswer(jobId: string, steps: seq<Step>, s: State)
    requires Leads(jobId, INIT, steps, s) && s.deleted
    requires forall i | 0 <= i < |steps| :: KeepsAnswers(steps[i], false, false)
    ensures ResultField in s.hash || ErrorField in s.hash
  {
    RunKeepsInv(jobId, INIT, steps, s);
    RunStaysAnswered(jobId, INIT, steps, s);
    MergedFields(jobId, s.log);
    var h :| h in s.handlers && s.handlers[h].tried;
    var i :| 0 <= i < |s.log| && Answers(s.log[i], h);
    assert s.log[i].report.Succeeded? || s.log[i].report.Errored?;
  }

  /** Some run within the permitted faults ends with the message deleted and neither a result nor an error to show. */
  ghost predicate CanLoseAnswer(jobId: string, lostReports: bool, expiry: bool) {
    exists steps, s ::
      && Leads(jobId, INIT, steps, s) && (forall i | 0 <= i < |steps| :: KeepsAnswers(steps[i], lostReports, expiry))
      && Unanswered(s)
  }

  predicate Unanswered(s: State) {
    s.deleted && ResultField !in s.hash && ErrorField !in s.hash
  }

  /** Losing a report and expiry are exactly what can leave a job without an answer; crashes, lost marks, failed
      deletes and redelivery cannot. */
  lemma CanLoseAnswerExactly(jobId: string, lostReports: bool, expiry: bool)
    ensures CanLoseAnswer(jobId, lostReports, expiry) <==> lostReports || expiry
  {
    if lostReports {
      var steps, s := LostReportStrandsJob(jobId, Errored("e"));
      ErrorFieldExactly(jobId, steps, s);
      assert Unanswered(s);
    } else if expiry {
      var steps, s := FirstReports(jobId, Errored("e"));
      Snoc(jobId, INIT, steps, s, Expire);
      assert Unanswered(Apply(jobId, s, Expire));
      assert Leads(jobId, INIT, steps + [Expire], Apply(jobId, s, Expire));
    } else {
      forall steps, s
        | Leads(jobId, INIT, steps, s) && forall i | 0 <= i < |steps| :: KeepsAnswers(steps[i], false, false)
        ensures !Unanswered(s)
      {
        if s.deleted {
          DeletedJobHasAnswer(jobId, steps, s);
        }
      }
    }
  }

  // ----- Messages that stay behind -----

  predicate CleansUp(step: Step, failedDeletes: bool, crashes: bool) {
    && (step.Delete? && !step.ok ==> failedDeletes)
    && (step.Crash? ==> crashes)
  }

  /** A result was reported and nobody is at work, but the message is still there to be delivered again. */
  ghost predicate Lingers(s: State) {
    SomeSucceeded(s.log) && NobodyLive(s) && !s.deleted
  }

  ghost predicate CanLinger(jobId: string, failedDeletes: bool, crashes: bool) {
    exists steps, s ::
      && Leads(jobId, INIT, steps, s) && (forall i | 0 <= i < |steps| :: CleansUp(steps[i], failedDeletes, crashes))
      && Lingers(s)
  }

  /** Whoever is done has deleted the message. */
  ghost predicate Tidy(s: State) {
    forall h | h in s.handlers :: s.handlers[h].phase != Crashed && (s.handlers[h].phase == Finished ==> s.deleted)
  }

  lemma StepStaysTidy(jobId: string, s: State, step: Step)
    requires Tidy(s) && Enabled(s, step) && CleansUp(step, false, false)
    ensures Tidy(Apply(jobId, s, step))
  {
  }

  lemma {:induction false} RunStaysTidy(jobId: string, s: State, steps: seq<Step>, t: State)
    requires Tidy(s) && Leads(jobId, s, steps, t)
    requires forall i | 0 <= i < |steps| :: CleansUp(steps[i], false, false)
    ensures Tidy(t)
    decreases |steps|
  {
    if steps != [] {
      assert CleansUp(steps[0], false, false);
      StepStaysTidy(jobId, s, steps[0]);
      RunStaysTidy(jobId, Apply(jobId, s, steps[0]), steps[1..], t);
    }
  }

  /** One delivery that reports a result, up to its attempt to delete the message. */
  lemma ReportsResult(jobId: string, result: LabelledResponse) returns (steps: seq<Step>, s: State)
    ensures steps == [Deliver(0), Mark(0, true, 0), Tell(0, Succeeded(false, result), true, 0)]
    ensures Leads(jobId, INIT, steps, s) && !s.deleted && SomeSucceeded(s.log)
    ensures s.handlers == map[0 := Handler(Reported, true, true, true)]
  {
    assert Leads(jobId, INIT, [], INIT);
    steps, s := MarkOnce(jobId, [], INIT, 0, true, 0);
    var step := Tell(0, Succeeded(false, result), true, 0);
    Snoc(jobId, INIT, steps, s, step);
    steps, s := steps + [step], Apply(jobId, s, step);
    assert s.log[|s.log| - 1].report.Succeeded?;
  }

  /** A failed delete and a crash are exactly what can leave an answered job's message behind, a crash even after the
      report. */
  lemma CanLingerExactly(jobId: string, failedDeletes: bool, crashes: bool)
    ensures CanLinger(jobId, failedDeletes, crashes) <==> failedDeletes || crashes
  {
    if failedDeletes || crashes {
      var steps, s := ReportsResult(jobId, LabelledResponse(Accepted, None, []));
      var last := if failedDeletes then Delete(0, false) else Crash(0);
      Snoc(jobId, INIT, steps, s, last);
      assert Lingers(Apply(jobId, s, last));
      assert forall i | 0 <= i < |steps| + 1 :: CleansUp((steps + [last])[i], failedDeletes, crashes);
    } else {
      forall steps, s
        | Leads(jobId, INIT, steps, s) && forall i | 0 <= i < |steps| :: CleansUp(steps[i], false, false)
        ensures !Lingers(s)
      {
        RunStaysTidy(jobId, INIT, steps, s);
        RunKeepsInv(jobId, INIT, steps, s);
        if SomeSucceeded(s.log) {
          var i :| 0 <= i < |s.log| && s.log[i].report.Succeeded?;
          assert EntrySound(s, s.log[i]);
        }
      }
    }
  }
}
