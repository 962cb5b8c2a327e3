/** Requests, responses and language definitions shared by the executor and the queue worker. */
module Types {

  datatype Option<+T> = None | Some(value: T)

  /** The text of an error; it is never empty. */
  type Message = s: string | s != "" witness "error"

  /** The per-test and top-level status vocabulary. */
  datatype Status =
    | Accepted | WrongOutput | WhitespaceMismatch | TimeExceeded | MemoryExceeded
    | RuntimeError | BuildFailed | NotExecuted | InternalError

  datatype BuildStatus = BuildOk | BuildDidFail | BuildBroken

  datatype TestCase = TestCase(input: string, expectedOutput: string, timeLimitS: int, memoryKB: int)

  datatype Request = Request(
    language: string, source: string, buildFlags: seq<string>, runFlags: seq<string>,
    testCases: seq<TestCase>, timeLimitS: int, memoryKB: int)

  datatype TestResult = TestResult(
    status: Status, stdout: string, stderr: string, exitCode: int, signal: Option<nat>,
    durationMS: int, memoryKB: int)

  datatype BuildPhase = BuildPhase(status: BuildStatus, stdout: string, stderr: string, durationMS: int)

  datatype Response = Response(status: Status, build: Option<BuildPhase>, tests: seq<TestResult>)

  /** One command of a language definition. */
  datatype Phase = Phase(
    command: string, args: seq<string>, allowedFlags: seq<string>,
    timeLimitS: int, memoryKB: int, maxProcesses: int)

  /** A language definition; loading rejects one without a run phase, so `run` is always there. */
  datatype Language = Language(sourceFile: string, artifact: string, build: Option<Phase>, run: Phase)

  datatype Config = Config(
    maxConcurrency: nat, queueDepth: nat, maxSourceBytes: int, maxOutputBytes: int,
    maxTestCases: int, nsjailPath: string, jailUID: int, jailGID: int)

  predicate IsSafeNameChar(c: char) {
    'a' <= c <= 'z' || 'A' <= c <= 'Z' || '0' <= c <= '9' || c == '.' || c == '_' || c == '-'
  }

  /** The pattern `^[a-zA-Z0-9._-]+$`. */
  predicate IsSafeName(s: string) {
    s != "" && forall i | 0 <= i < |s| :: IsSafeNameChar(s[i])
  }

  /** Integer division rounding toward zero, as Go divides. */
  function TruncDiv(a: int, b: int): int
    requires b > 0
  {
    if a >= 0 then a / b else -((-a) / b)
  }

  const NANOS_PER_MS := 1_000_000
  const NANOS_PER_S := 1_000_000_000

  /** `Duration.Milliseconds`. */
  function Milliseconds(nanos: int): int {
    TruncDiv(nanos, NANOS_PER_MS)
  }

  /** The ASCII codes of dash, dot, digits, capitals, underscore and small letters. */
  predicate IsSafeCode(n: int) {
    n in {
      0x2D, 0x2E,
      0x30, 0x31, 0x32, 0x33, 0x34, 0x35, 0x36, 0x37, 0x38, 0x39,
      0x41, 0x42, 0x43, 0x44, 0x45, 0x46, 0x47, 0x48, 0x49, 0x4A, 0x4B, 0x4C, 0x4D,
      0x4E, 0x4F, 0x50, 0x51, 0x52, 0x53, 0x54, 0x55, 0x56, 0x57, 0x58, 0x59, 0x5A,
      0x5F,
      0x61, 0x62, 0x63, 0x64, 0x65, 0x66, 0x67, 0x68, 0x69, 0x6A, 0x6B, 0x6C, 0x6D,
      0x6E, 0x6F, 0x70, 0x71, 0x72, 0x73, 0x74, 0x75, 0x76, 0x77, 0x78, 0x79, 0x7A}
  }

  /** A safe name is not empty and made of letters, digits, dots, underscores and dashes. */
  lemma SafeNameExactly(s: string)
    ensures IsSafeName(s) <==> s != "" && forall i | 0 <= i < |s| :: IsSafeCode(s[i] as int)
  {
    forall i | 0 <= i < |s| ensures IsSafeNameChar(s[i]) <==> IsSafeCode(s[i] as int) {
      SafeCharExactly(s[i]);
    }
  }

  lemma SafeCharExactly(c: char)
    ensures IsSafeNameChar(c) <==> IsSafeCode(c as int)
  {
  }

  /** A duration of `d` nanoseconds loses the part of a millisecond that it has too much, on either side of zero. */
  lemma MillisecondsExactly(d: int)
    ensures d >= 0 ==> Milliseconds(d) * 1_000_000 <= d < (Milliseconds(d) + 1) * 1_000_000
    ensures Milliseconds(-d) == -Milliseconds(d)
  {
  }
}
