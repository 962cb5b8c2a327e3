/** The top-level verdict of a response. */
module Verdict {
  import opened Types

  /** The status of the first test that is not accepted. */
  function FirstFailure(tests: seq<TestResult>): Status {
    if tests == [] then Accepted
    else if tests[0].status != Accepted then tests[0].status
    else FirstFailure(tests[1..])
  }

  function RollupOf(r: Response): Status {
    if r.build.Some? && r.build.value.status == BuildDidFail then BuildFailed else FirstFailure(r.tests)
  }

  method Rollup(r: Response) returns (status: Status)
    ensures status == RollupOf(r)
  {
    if r.build.Some? && r.build.value.status == BuildDidFail {
      return BuildFailed;
    }
    for i := 0 to |r.tests|
      invariant FirstFailure(r.tests) == FirstFailure(r.tests[i..])
    {
      if r.tests[i].status != Accepted {
        return r.tests[i].status;
      }
    }
    return Accepted;
  }

  ghost predicate AllAccepted(tests: seq<TestResult>) {
    forall i | 0 <= i < |tests| :: tests[i].status == Accepted
  }

  /** The verdict is accepted exactly when every test is; otherwise it is the status of a failing test
      that only accepted tests precede. */
  lemma {:induction false} FirstFailureIsFirst(tests: seq<TestResult>)
    ensures FirstFailure(tests) == Accepted <==> AllAccepted(tests)
    ensures FirstFailure(tests) != Accepted ==>
              exists i | 0 <= i < |tests| :: tests[i].status == FirstFailure(tests) && AllAccepted(tests[..i])
    decreases |tests|
  {
    if tests != [] {
      FirstFailureIsFirst(tests[1..]);
      if tests[0].status != Accepted {
        assert AllAccepted(tests[..0]);
      } else if FirstFailure(tests) != Accepted {
        var i :| 0 <= i < |tests| - 1 && tests[1..][i].status == FirstFailure(tests) && AllAccepted(tests[1..][..i]);
        assert tests[..i + 1] == [tests[0]] + tests[1..][..i];
        assert AllAccepted(tests[..i + 1]);
        assert tests[i + 1].status == FirstFailure(tests);
      } else {
        assert tests == [tests[0]] + tests[1..];
      }
    }
  }

  /** Accepting does not depend on the order of the tests. */
  lemma AcceptanceIgnoresOrder(a: seq<TestResult>, b: seq<TestResult>)
    requires multiset(a) == multiset(b)
    ensures FirstFailure(a) == Accepted <==> FirstFailure(b) == Accepted
  {
    FirstFailureIsFirst(a);
    FirstFailureIsFirst(b);
    SameElements(a, b);
    SameElements(b, a);
  }

  lemma SameElements(a: seq<TestResult>, b: seq<TestResult>)
    requires multiset(a) == multiset(b)
    ensures forall i | 0 <= i < |a| :: a[i] in b
  {
    forall i | 0 <= i < |a| ensures a[i] in b {
      assert a[i] in multiset(a);
    }
  }

  /** Some order of the tests reports any given failing test. */
  lemma FailureCanComeFirst(tests: seq<TestResult>, i: nat) returns (p: seq<TestResult>)
    requires i < |tests| && tests[i].status != Accepted
    ensures multiset(p) == multiset(tests) && FirstFailure(p) == tests[i].status
  {
    p := [tests[i]] + (tests[..i] + tests[i + 1..]);
    assert tests == tests[..i] + [tests[i]] + tests[i + 1..];
  }

  ghost predicate Failing(tests: seq<TestResult>, i: int) {
    0 <= i < |tests| && tests[i].status != Accepted
  }

  ghost predicate FailuresAgree(tests: seq<TestResult>) {
    forall i, j | Failing(tests, i) && Failing(tests, j) :: tests[i].status == tests[j].status
  }

  /** The verdict of any order is the status of a failing test, if there is one. */
  lemma VerdictIsSomeFailure(tests: seq<TestResult>, p: seq<TestResult>)
    requires multiset(p) == multiset(tests)
    ensures FirstFailure(p) == Accepted <==> FirstFailure(tests) == Accepted
    ensures FirstFailure(p) != Accepted ==> exists k :: Failing(tests, k) && tests[k].status == FirstFailure(p)
  {
    AcceptanceIgnoresOrder(p, tests);
    FirstFailureIsFirst(p);
    SameElements(p, tests);
    if FirstFailure(p) != Accepted {
      var i :| 0 <= i < |p| && p[i].status == FirstFailure(p);
      var k :| 0 <= k < |tests| && tests[k] == p[i];
      assert Failing(tests, k);
    }
  }

  /** The reported verdict is the same for every order of the tests exactly when all failing tests
      fail alike. */
  lemma VerdictStableExactly(tests: seq<TestResult>)
    ensures (forall p: seq<TestResult> | multiset(p) == multiset(tests) :: FirstFailure(p) == FirstFailure(tests))
            <==> FailuresAgree(tests)
  {
    if FailuresAgree(tests) {
      VerdictIsSomeFailure(tests, tests);
      forall p: seq<TestResult> | multiset(p) == multiset(tests) ensures FirstFailure(p) == FirstFailure(tests) {
        VerdictIsSomeFailure(tests, p);
      }
    } else {
      var i, j :| Failing(tests, i) && Failing(tests, j) && tests[i].status != tests[j].status;
      var p := FailureCanComeFirst(tests, i);
      var q := FailureCanComeFirst(tests, j);
      assert FirstFailure(p) != FirstFailure(tests) || FirstFailure(q) != FirstFailure(tests);
    }
  }

  /** Running out of time is told apart from every other failure, or there is nothing to tell apart. */
  ghost predicate TimeoutsUnmixed(tests: seq<TestResult>) {
    forall i, j | Failing(tests, i) && Failing(tests, j) ::
      tests[i].status == TimeExceeded <==> tests[j].status == TimeExceeded
  }

  /** Whether the verdict is a timeout is the same for every order exactly when timeouts and other
      failures are not mixed. */
  lemma TimeoutStableExactly(tests: seq<TestResult>)
    ensures (forall p: seq<TestResult> | multiset(p) == multiset(tests) ::
               FirstFailure(p) == TimeExceeded <==> FirstFailure(tests) == TimeExceeded)
            <==> TimeoutsUnmixed(tests)
  {
    if TimeoutsUnmixed(tests) {
      VerdictIsSomeFailure(tests, tests);
      forall p: seq<TestResult> | multiset(p) == multiset(tests)
        ensures FirstFailure(p) == TimeExceeded <==> FirstFailure(tests) == TimeExceeded
      {
        VerdictIsSomeFailure(tests, p);
      }
    } else {
      var i, j :| Failing(tests, i) && Failing(tests, j) && tests[i].status == TimeExceeded && tests[j].status != TimeExceeded;
      var p := FailureCanComeFirst(tests, i);
      var q := FailureCanComeFirst(tests, j);
      assert FirstFailure(p) == TimeExceeded && FirstFailure(q) != TimeExceeded;
    }
  }
}
