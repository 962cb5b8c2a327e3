/** How one sandboxed process ends, as the executor sees it. */
module Sandbox {
  import opened Types
  import opened OutputCapture

  datatype RunSpec = RunSpec(
    nsjailPath: string, cwd: string, command: string, args: seq<string>, stdin: string,
    wallTime: int, memoryKB: int, maxProcesses: int, maxOutput: int, uid: int, gid: int)

  /** The error of running the child: none, a non-zero or signalled exit, or anything else. */
  datatype ExecError = NoError | ExitError(exitCode: int, signal: Option<nat>) | OtherError(text: string)

  /** Everything the environment decides about one process. The two outputs come in the chunks in which they are
      written; `deadlineExceeded` covers the hard deadline of the call and any deadline of its caller; `elapsed`
      is in nanoseconds. */
  datatype ProcessEnd = ProcessEnd(
    stdout: seq<string>, stderr: seq<string>, error: ExecError, deadlineExceeded: bool, elapsed: int, maxRSSKB: int)

  datatype Result = Result(
    stdout: string, stderr: string, exitCode: int, signal: Option<nat>, duration: int, maxRSSKB: int,
    timedOut: bool, oomKilled: bool, outputCapped: bool)

  datatype Outcome = Broken(text: Message) | Finished(result: Result)

  const SIGKILL_EXIT := 128 + 9
  const SIGXCPU_EXIT := 128 + 24
  const KILL_SLACK := 100 * NANOS_PER_MS
  const HARD_GRACE := 2 * NANOS_PER_S

  /** The deadline put on top of the jail's own time limit. */
  function HardTimeout(spec: RunSpec): int {
    spec.wallTime + HARD_GRACE
  }

  /** The exit code after signals have been folded into it. */
  function EffectiveExit(error: ExecError): int {
    match error
    case ExitError(code, Some(sig)) => 128 + sig
    case ExitError(code, None) => code
    case _ => 0
  }

  /** A process that used up its time: a deadline passed, the CPU limit fired, or it was killed at the limit. */
  predicate RanOutOfTime(spec: RunSpec, p: ProcessEnd) {
    || p.deadlineExceeded
    || (p.error.ExitError? && EffectiveExit(p.error) == SIGXCPU_EXIT)
    || (p.error.ExitError? && EffectiveExit(p.error) == SIGKILL_EXIT && p.elapsed >= spec.wallTime - KILL_SLACK)
  }

  /** A process killed clearly before its time limit. */
  predicate KilledEarly(spec: RunSpec, p: ProcessEnd) {
    p.error.ExitError? && EffectiveExit(p.error) == SIGKILL_EXIT && p.elapsed < spec.wallTime - KILL_SLACK
  }

  predicate Usable(spec: RunSpec) {
    spec.nsjailPath != "" && spec.command != ""
  }

  /** What is captured of an output. */
  function Captured(maxOutput: int, chunks: seq<string>): string {
    Kept(maxOutput, Flatten(chunks))
  }

  /** What a run of the spec yields when its process ends as `p`. */
  function Observe(spec: RunSpec, p: ProcessEnd): Outcome {
    if spec.nsjailPath == "" then Broken("sandbox: empty nsjail path")
    else if spec.command == "" then Broken("sandbox: empty command")
    else match p.error
      case OtherError(text) => Broken("nsjail exec: " + text)
      case _ =>
        Finished(Result(Captured(spec.maxOutput, p.stdout), Captured(spec.maxOutput, p.stderr), EffectiveExit(p.error),
                        if p.error.ExitError? then p.error.signal else None,
                        p.elapsed, p.maxRSSKB, RanOutOfTime(spec, p), KilledEarly(spec, p),
                        Refused(spec.maxOutput, p.stdout) || Refused(spec.maxOutput, p.stderr)))
  }

  /** The result record under construction. */
  class ResultRecord {
    var exitCode: int
    var signal: Option<nat>
    var timedOut: bool
    var oomKilled: bool

    constructor (timedOut: bool)
      ensures exitCode == 0 && signal == None && this.timedOut == timedOut && !oomKilled
    {
      exitCode, signal, this.timedOut, oomKilled := 0, None, timedOut, false;
    }

    /** Turns the wait status into the out-of-time and out-of-memory flags. */
    method ClassifyExit(spec: RunSpec, waitSignal: Option<nat>, elapsed: int)
      modifies this
      ensures exitCode == EffectiveExit(ExitError(old(exitCode), waitSignal))
      ensures signal == if waitSignal.Some? then waitSignal else old(signal)
      ensures timedOut <==> old(timedOut) || exitCode == SIGXCPU_EXIT
                            || (exitCode == SIGKILL_EXIT && elapsed >= spec.wallTime - KILL_SLACK)
      ensures oomKilled <==> old(oomKilled) || (exitCode == SIGKILL_EXIT && elapsed < spec.wallTime - KILL_SLACK)
    {
      if waitSignal.Some? {
        signal := waitSignal;
        exitCode := 128 + waitSignal.value;
      }
      if exitCode == SIGKILL_EXIT {
        if elapsed >= spec.wallTime - KILL_SLACK {
          timedOut := true;
        } else {
          oomKilled := true;
        }
      } else if exitCode == SIGXCPU_EXIT {
        timedOut := true;
      }
    }
  }

  /** Copies an output into a capped buffer, chunk by chunk. */
  method Collect(max: int, chunks: seq<string>) returns (text: string, capped: bool)
    ensures text == Captured(max, chunks) && capped == Refused(max, chunks)
  {
    var buf := new CappedBuffer<char>(max);
    for i := 0 to |chunks|
      invariant buf.Valid() && buf.max == max && buf.chunks == chunks[..i] && fresh(buf)
    {
      var n := buf.Write(chunks[i]);
    }
    assert chunks[..|chunks|] == chunks;
    text, capped := buf.buf, buf.capped;
  }

  /** One sandboxed run, step by step. */
  method Run(spec: RunSpec, p: ProcessEnd) returns (out: Outcome)
    ensures out == Observe(spec, p)
  {
    if spec.nsjailPath == "" {
      return Broken("sandbox: empty nsjail path");
    }
    if spec.command == "" {
      return Broken("sandbox: empty command");
    }
    var stdout, outCapped := Collect(spec.maxOutput, p.stdout);
    var stderr, errCapped := Collect(spec.maxOutput, p.stderr);
    var res := new ResultRecord(false);
    if p.deadlineExceeded {
      res.timedOut := true;
    }
    match p.error {
      case NoError =>
      case OtherError(text) =>
        return Broken("nsjail exec: " + text);
      case ExitError(code, waitSignal) =>
        res.exitCode := code;
        res.ClassifyExit(spec, waitSignal, p.elapsed);
    }
    out := Finished(Result(stdout, stderr, res.exitCode, res.signal, p.elapsed, p.maxRSSKB, res.timedOut, res.oomKilled,
                           outCapped || errCapped));
  }
}
