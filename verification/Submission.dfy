/** The submission front end: a list of test cases becomes the job's map from input to expected output. */
module Submission {
  import opened Types

  datatype CaseItem = CaseItem(input: string, expectedOutput: Option<string>)

  /** The job that is queued. `kind` is the job type, in lower case. */
  datatype Job = Job(
    jobId: string, kind: string, sourceCode: string, language: string, stdin: string,
    testCases: map<string, string>, timeLimitSeconds: Option<real>, memoryLimitKb: Option<int>)

  function Formatted(input: string): string {
    if input != "" && input[|input| - 1] == '\n' then input else input + "\n"
  }

  /** The shortest text that starts with the input and ends in a newline. */
  lemma FormattedExactly(input: string)
    ensures var key := Formatted(input);
            && input <= key && key != "" && key[|key| - 1] == '\n'
            && (key == input <==> input != "" && input[|input| - 1] == '\n')
            && |key| <= |input| + 1
  {
  }

  function Expected(item: CaseItem): string {
    match item.expectedOutput case Some(e) => e case None => ""
  }

  function Collapse(items: seq<CaseItem>): map<string, string> {
    if items == [] then map[]
    else
      var last := items[|items| - 1];
      Collapse(items[..|items| - 1])[Formatted(last.input) := Expected(last)]
  }

  /** The map is filled key by key. */
  method CollapseCases(items: seq<CaseItem>) returns (m: map<string, string>)
    ensures m == Collapse(items)
  {
    m := map[];
    for i := 0 to |items|
      invariant m == Collapse(items[..i])
    {
      var key := if items[i].input != "" && items[i].input[|items[i].input| - 1] == '\n' then items[i].input
                 else items[i].input + "\n";
      m := m[key := Expected(items[i])];
      assert items[..i + 1][..i] == items[..i];
    }
    assert items[..|items|] == items;
  }

  /** An optional field of the payload: left out, explicitly null or given. */
  datatype Optional<+T> = Absent | Null | Given(value: T)

  datatype Payload = Payload(
    sourceCode: string, language: string, kind: Optional<string>, items: seq<CaseItem>,
    timeLimitMs: Optional<int>, memoryLimitMb: Optional<int>)

  /** A default stands in for a field that is left out, not for an explicit null. */
  function OrDefault<T>(field: Optional<T>, default: T): Option<T> {
    match field
    case Absent => Some(default)
    case Null => None
    case Given(v) => Some(v)
  }

  /** The answer to a submission: status 422, status 500, or 202 with the job that was queued. */
  datatype Answer = Unprocessable | ServerError | Dispatched(job: Job)

  /** Validation wants source code and a test case; an explicit null breaks the conversions behind it. `lower`
      is the library's lower-casing; `haveQueue` and `sent` say whether there is a queue and the send succeeds. */
  method CreateJob(p: Payload, jobId: string, lower: string -> string, haveQueue: bool, sent: bool) returns (answer: Answer)
    ensures answer == Unprocessable <==> p.sourceCode == "" || p.items == []
    ensures answer.Dispatched?
            <==> && p.sourceCode != "" && p.items != [] && haveQueue && sent
                 && p.timeLimitMs != Null && p.memoryLimitMb != Null && p.kind != Null
    ensures answer.Dispatched? ==>
              && answer.job.jobId == jobId && answer.job.sourceCode == p.sourceCode
              && answer.job.language == lower(p.language) && answer.job.stdin == p.items[0].input
              && answer.job.kind == lower(if p.kind.Given? then p.kind.value else "run")
              && answer.job.testCases == Collapse(p.items) != map[]
              && answer.job.timeLimitSeconds == Some((if p.timeLimitMs.Given? then p.timeLimitMs.value else 2000) as real / 1000.0)
              && answer.job.memoryLimitKb == Some((if p.memoryLimitMb.Given? then p.memoryLimitMb.value else 256) * 1024)
  {
    if |p.sourceCode| < 1 || |p.items| < 1 {
      return Unprocessable;
    }
    if !haveQueue {
      return ServerError;
    }
    var timeLimitMs := OrDefault(p.timeLimitMs, 2000);
    if timeLimitMs == None {
      return ServerError;
    }
    var timeLimitSeconds := timeLimitMs.value as real / 1000.0;
    var memoryLimitMb := OrDefault(p.memoryLimitMb, 256);
    if memoryLimitMb == None {
      return ServerError;
    }
    var m := CollapseCases(p.items);
    ghost var last := CollapseIsLastWins(p.items, |p.items| - 1);
    var kind := OrDefault(p.kind, "run");
    if kind == None {
      return ServerError;
    }
    var job := Job(jobId, lower(kind.value), p.sourceCode, lower(p.language), p.items[0].input, m,
                   Some(timeLimitSeconds), Some(memoryLimitMb.value * 1024));
    if !sent {
      return ServerError;
    }
    answer := Dispatched(job);
  }

  /** The `i`-th case is the last one with its input. */
  ghost predicate Survives(items: seq<CaseItem>, i: nat)
    requires i < |items|
  {
    forall j | i < j < |items| :: Formatted(items[j].input) != Formatted(items[i].input)
  }

  /** The index of the last case whose input formats to the given key. */
  ghost function LastIndex(items: seq<CaseItem>, key: string): int
    ensures -1 <= LastIndex(items, key) < |items|
  {
    if items == [] then -1
    else if Formatted(items[|items| - 1].input) == key then |items| - 1
    else LastIndex(items[..|items| - 1], key)
  }

  lemma {:induction false} LastIndexIsLast(items: seq<CaseItem>, key: string)
    ensures var i := LastIndex(items, key);
            && (i >= 0 ==> Formatted(items[i].input) == key)
            && forall j | i < j < |items| :: Formatted(items[j].input) != key
    decreases |items|
  {
    if items != [] {
      LastIndexIsLast(items[..|items| - 1], key);
    }
  }

  lemma {:induction false} CollapseLookup(items: seq<CaseItem>, key: string)
    ensures key in Collapse(items) <==> LastIndex(items, key) >= 0
    ensures key in Collapse(items) ==> Collapse(items)[key] == Expected(items[LastIndex(items, key)])
    decreases |items|
  {
    if items != [] {
      CollapseLookup(items[..|items| - 1], key);
    }
  }

  /** Every listed input is a key; the expectation kept for it is the one of its last occurrence. */
  lemma CollapseIsLastWins(items: seq<CaseItem>, i: nat) returns (last: nat)
    requires i < |items|
    ensures i <= last < |items| && Survives(items, last) && Formatted(items[last].input) == Formatted(items[i].input)
    ensures Formatted(items[i].input) in Collapse(items)
    ensures Collapse(items)[Formatted(items[i].input)] == if items[last].expectedOutput.Some? then items[last].expectedOutput.value else ""
    ensures Survives(items, i) ==> last == i
  {
    var key := Formatted(items[i].input);
    LastIndexIsLast(items, key);
    CollapseLookup(items, key);
    last := LastIndex(items, key);
  }

  /** Every key comes from a listed case that survives, and ends in a newline. */
  lemma CollapseKeysAreListed(items: seq<CaseItem>, key: string) returns (i: nat)
    requires key in Collapse(items)
    ensures i < |items| && Survives(items, i) && Formatted(items[i].input) == key
    ensures Collapse(items)[key] == Expected(items[i])
    ensures key != "" && key[|key| - 1] == '\n'
  {
    LastIndexIsLast(items, key);
    CollapseLookup(items, key);
    i := LastIndex(items, key);
  }
}
