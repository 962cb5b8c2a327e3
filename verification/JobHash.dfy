/** The hash kept for one job, how the worker writes to it and how a poll reads it. */
module JobHash {
  import opened Types

  datatype JobStatus = Running | Done | Timeout | Error

  /** A test result together with the test case it belongs to. */
  datatype LabelledTest = LabelledTest(result: TestResult, stdin: string, expectedOutput: string)

  datatype LabelledResponse = LabelledResponse(status: Status, build: Option<BuildPhase>, tests: seq<LabelledTest>)

  datatype Field = JobIdField | StatusField | UpdatedAtField | ResultField | ErrorField

  datatype Value =
    | Text(text: string) | StatusValue(status: JobStatus) | Stamp(millis: int)
    | Encoded(result: LabelledResponse) | Decoded(result: LabelledResponse)

  type Hash = map<Field, Value>

  /** What a worker has to say about a job. */
  datatype Report = Started | Succeeded(timedOut: bool, result: LabelledResponse) | Errored(text: Message)

  function StatusOf(report: Report): JobStatus {
    match report
    case Started => Running
    case Succeeded(timedOut, _) => if timedOut then Timeout else Done
    case Errored(_) => Error
  }

  function ResultOf(report: Report): Option<LabelledResponse> {
    if report.Succeeded? then Some(report.result) else None
  }

  function ErrorOf(report: Report): string {
    if report.Errored? then report.text else ""
  }

  /** The fields a status write sets: an empty error text and an absent result add nothing. */
  function StatusFields(jobId: string, status: JobStatus, result: Option<LabelledResponse>, errorText: string, now: int): Hash {
    map[JobIdField := Text(jobId), StatusField := StatusValue(status), UpdatedAtField := Stamp(now)]
    + (if errorText != "" then map[ErrorField := Text(errorText)] else map[])
    + (if result.Some? then map[ResultField := Encoded(result.value)] else map[])
  }

  /** The fields a report sets; writing merges them into the hash and removes nothing. */
  function FieldsOf(jobId: string, report: Report, now: int): Hash {
    StatusFields(jobId, StatusOf(report), ResultOf(report), ErrorOf(report), now)
  }

  /** The field set of a write, assembled as the optional parts come. */
  method AssembleFields(jobId: string, status: JobStatus, result: Option<LabelledResponse>, errorText: string, now: int)
    returns (fields: Hash)
    ensures fields == StatusFields(jobId, status, result, errorText, now)
    ensures JobIdField in fields && StatusField in fields && UpdatedAtField in fields
    ensures fields[JobIdField] == Text(jobId) && fields[StatusField] == StatusValue(status) && fields[UpdatedAtField] == Stamp(now)
    ensures ErrorField in fields <==> errorText != ""
    ensures errorText != "" ==> fields[ErrorField] == Text(errorText)
    ensures ResultField in fields <==> result.Some?
    ensures result.Some? ==> fields[ResultField] == Encoded(result.value)
  {
    fields := map[JobIdField := Text(jobId), StatusField := StatusValue(status), UpdatedAtField := Stamp(now)];
    if errorText != "" {
      fields := fields[ErrorField := Text(errorText)];
    }
    if result.Some? {
      fields := fields[ResultField := Encoded(result.value)];
    }
  }

  /** What a poll gets to see. */
  datatype View = Queued | Found(fields: Hash)

  function ViewOf(hash: Hash): View {
    if hash == map[] then Queued
    else if ResultField in hash && hash[ResultField].Encoded? then
      Found(hash[ResultField := Decoded(hash[ResultField].result)])
    else Found(hash)
  }

  function HashAt(redis: map<string, Hash>, key: string): Hash {
    if key in redis then redis[key] else map[]
  }

  /** A poll reads the job's own hash. */
  method PollJob(redis: map<string, Hash>, jobId: string) returns (view: View)
    ensures view == ViewOf(HashAt(redis, "job:" + jobId))
  {
    view := Poll(HashAt(redis, "job:" + jobId));
  }

  method Poll(hash: Hash) returns (view: View)
    ensures view == ViewOf(hash)
  {
    if |hash| == 0 {
      return Queued;
    }
    var data := hash;
    if ResultField in data && data[ResultField].Encoded? {
      data := data[ResultField := Decoded(data[ResultField].result)];
    }
    return Found(data);
  }
}
