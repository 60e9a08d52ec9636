/**
 * `minitest::Runner`: an ordered list of test cases, each run on a fresh
 * result, with a progress line per test, the failure details of the tests
 * that failed, and a pass/fail summary. Console output is returned as text.
 */
module Runners {
  import opened Text
  import opened FailureModel
  import opened TestResults
  import opened Assertions
  import opened Report

  /** A registered test: the name its `testName()` gives and the body its `runTestCase()` runs. */
  datatype TestCase = TestCase(name: string, body: seq<Op>)

  /** The result of running `t` on a fresh result object named after it. */
  function RunTest(t: TestCase): (r: ResultState)
    ensures r.name == t.name
  {
    var s := Initial().(name := t.name);
    ExecOps(s, t.body)
  }

  predicate Fails(t: TestCase) {
    Failed(RunTest(t))
  }

  /** The results of running the tests one after the other, each on its own fresh result. */
  function Outcomes(ts: seq<TestCase>): (rs: seq<ResultState>)
    ensures |rs| == |ts|
  {
    if ts == [] then [] else Outcomes(ts[..|ts| - 1]) + [RunTest(ts[|ts| - 1])]
  }

  /** `Testing <name>: ` then `FAILED` or `OK` on the same line. */
  function StatusLine(r: ResultState): string {
    "Testing " + r.name + ": " + (if Failed(r) then "FAILED" else "OK") + "\n"
  }

  /** The progress lines of `runAllTest`, one per test in registration order. */
  function ProgressText(rs: seq<ResultState>): string {
    if rs == [] then "" else ProgressText(rs[..|rs| - 1]) + StatusLine(rs[|rs| - 1])
  }

  /** The results `runAllTest` keeps: the failed ones, in order. */
  function FailedResults(rs: seq<ResultState>): (kept: seq<ResultState>)
    ensures |kept| <= |rs|
    ensures forall i :: 0 <= i < |kept| ==> Failed(kept[i])
  {
    if rs == [] then []
    else
      var last := rs[|rs| - 1];
      FailedResults(rs[..|rs| - 1]) + (if Failed(last) then [last] else [])
  }

  /** The number of passed results, counted from the front: a reference for the summary. */
  function PassCount(rs: seq<ResultState>): nat {
    if rs == [] then 0 else (if Failed(rs[0]) then 0 else 1) + PassCount(rs[1..])
  }

  /** The details of every kept result, one after the other. */
  function ReportsText(results: seq<ResultState>, printTestName: bool): string {
    if results == [] then ""
    else ReportsText(results[..|results| - 1], printTestName) + FailureReport(results[|results| - 1], printTestName)
  }

  /** The summary line of `runAllTest`. */
  function SummaryText(count: nat, failed: nat): string
    requires failed <= count
  {
    if failed == 0 then "All " + NatText(count) + " tests passed\n"
    else NatText(count - failed) + "/" + NatText(count) + " tests passed (" + NatText(failed) + " failure(s))\n"
  }

  /** Everything `runAllTest(printSummary)` writes, given the results of the tests in order. */
  function RunAllText(rs: seq<ResultState>, printSummary: bool): string {
    var failed := FailedResults(rs);
    var summary := if printSummary then SummaryText(|rs|, |failed|) else "";
    if failed == [] then ProgressText(rs) + summary
    else ProgressText(rs) + ReportsText(failed, |rs| > 1) + summary
  }

  class Runner {
    /** The registered tests, in the order they were added. */
    var tests: seq<TestCase>

    constructor ()
      ensures tests == []
    {
      tests := [];
    }

    /** `add`: register one more test after the others. */
    method Add(t: TestCase)
      modifies this
      ensures tests == old(tests) + [t]
      ensures TestCount() == old(TestCount()) + 1 && tests[TestCount() - 1] == t
    {
      tests := tests + [t];
    }

    /** `testCount`: the number of registered tests. */
    function TestCount(): (n: nat)
      reads this
      ensures n == |tests|
    {
      |tests|
    }

    method TestNameAt(index: nat) returns (name: string)
      requires index < |tests|
      ensures name == tests[index].name
    {
      var test := tests[index];
      name := test.name;
    }

    /**
     * `runTestAt`: name the result after the test, run the body on it, and
     * write `FAILED` when the result reports `failed()` afterwards, `OK` otherwise.
     */
    method RunTestAt(index: nat, result: TestResult) returns (progress: string)
      requires index < |tests| && result.Valid()
      modifies result
      ensures result.Valid()
      ensures result.Model() == ExecOps(old(result.Model()).(name := tests[index].name), tests[index].body)
      ensures old(result.Model()) == Initial() ==> result.Model() == RunTest(tests[index])
      ensures progress == StatusLine(result.Model())
    {
      var test := tests[index];
      result.SetTestName(test.name);
      progress := "Testing " + test.name + ": ";
      RunOps(result, test.body);
      var status := if result.Failed() then "FAILED" else "OK";
      progress := progress + status + "\n";
    }

    /**
     * `runAllTest`: run every test on a fresh result and keep the failing
     * results; print their details (naming each test when there is more than
     * one) and the summary. True exactly when no test failed.
     */
    method RunAllTest(printSummary: bool) returns (allPassed: bool, out: string)
      ensures allPassed <==> FailedResults(Outcomes(tests)) == []
      ensures out == RunAllText(Outcomes(tests), printSummary)
    {
      var count := TestCount();
      var failures, progress := RunEach();
      allPassed, out := Conclude(failures, progress, count, printSummary);
      RunAllTextParts(Outcomes(tests), printSummary);
    }

    /** The loop of `runAllTest`: each test on a fresh result, its progress line, and the failed results kept. */
    method RunEach() returns (failures: seq<ResultState>, progress: string)
      ensures failures == FailedResults(Outcomes(tests))
      ensures progress == ProgressText(Outcomes(tests))
    {
      failures := [];
      progress := "";
      var index := 0;
      while index < |tests|
        invariant index <= |tests|
        invariant failures == FailedResults(Outcomes(tests[..index]))
        invariant progress == ProgressText(Outcomes(tests[..index]))
      {
        var r, line := RunFresh(index);
        RunEachStep(tests, index, r);
        progress := progress + line;
        if Failed(r) {
          failures := failures + [r];
        }
        index := index + 1;
      }
      assert tests[..index] == tests;
    }

    /** One iteration of that loop: a new result, the test run on it, and a copy of the result. */
    method RunFresh(index: nat) returns (r: ResultState, line: string)
      requires index < |tests|
      ensures r == RunTest(tests[index]) && line == StatusLine(r)
    {
      var result := new TestResult();
      line := RunTestAt(index, result);
      r := result.Model();
    }

    /** `testIndex`: the first registered test with that name; `indexOut` is left alone when there is none. */
    method TestIndex(testName: string, indexIn: nat) returns (found: bool, indexOut: nat)
      ensures found <==> exists i :: 0 <= i < |tests| && tests[i].name == testName
      ensures found ==> indexOut < |tests| && tests[indexOut].name == testName
      ensures found ==> forall j :: 0 <= j < indexOut ==> tests[j].name != testName
      ensures !found ==> indexOut == indexIn
    {
      var count := TestCount();
      var index := 0;
      while index < count
        invariant index <= count == |tests|
        invariant forall j :: 0 <= j < index ==> tests[j].name != testName
      {
        var name := TestNameAt(index);
        if name == testName {
          return true, index;
        }
        index := index + 1;
      }
      return false, indexIn;
    }
  }

  /**
   * The end of `runAllTest`: with no failed result, the progress lines and the
   * summary; otherwise the details of every failed result in between.
   * `RunAllTextParts` ties this to `RunAllText`, about which `AllPassedIff`,
   * `SummaryCounts` and `EmptyRunner` are proved.
   */
  method Conclude(failures: seq<ResultState>, progress: string, count: nat, printSummary: bool)
    returns (allPassed: bool, out: string)
    requires |failures| <= count
    ensures allPassed <==> failures == []
    ensures out == progress + (if failures == [] then "" else ReportsText(failures, count > 1))
                            + (if printSummary then SummaryText(count, |failures|) else "")
  {
    out := progress;
    if failures != [] {
      var details := PrintFailures(failures, count > 1);
      out := out + details;
    }
    if printSummary {
      var summary := SummaryLine(count, |failures|);
      out := out + summary;
    }
    allPassed := failures == [];
  }

  /**
   * The last line of `runAllTest`: all passed, or passed/total with the failed
   * count. `SummaryCounts` shows the passed figure is the independently
   * counted `PassCount`.
   */
  method SummaryLine(count: nat, failedCount: nat) returns (line: string)
    requires failedCount <= count
    ensures line == SummaryText(count, failedCount)
  {
    if failedCount == 0 {
      line := "All " + NatText(count) + " tests passed\n";
    } else {
      var passedCount := count - failedCount;
      line := NatText(passedCount) + "/" + NatText(count) + " tests passed (" + NatText(failedCount) + " failure(s))\n";
    }
  }

  /** The loop of `runAllTest` that prints the details of each kept result. */
  method PrintFailures(results: seq<ResultState>, printTestName: bool) returns (out: string)
    ensures out == ReportsText(results, printTestName)
  {
    out := "";
    var i := 0;
    while i < |results|
      invariant i <= |results|
      invariant out == ReportsText(results[..i], printTestName)
    {
      var text := PrintFailure(results[i], printTestName);
      out := out + text;
      assert results[..i + 1][..i] == results[..i];
      i := i + 1;
    }
    assert results[..i] == results;
  }

  // ---------------------------------------------------------------------------
  // Properties of the counting

  /** Running test `i` extends the kept results and the progress text by that test's part. */
  lemma RunEachStep(ts: seq<TestCase>, i: nat, r: ResultState)
    requires i < |ts| && r == RunTest(ts[i])
    ensures var before, after := Outcomes(ts[..i]), Outcomes(ts[..i + 1]);
      && FailedResults(after) == FailedResults(before) + (if Failed(r) then [r] else [])
      && ProgressText(after) == ProgressText(before) + StatusLine(r)
  {
    assert ts[..i + 1][..i] == ts[..i];
    assert Outcomes(ts[..i + 1]) == Outcomes(ts[..i]) + [r];
  }

  /** No failed result is kept exactly when no test fails. */
  lemma AllPassedIff(ts: seq<TestCase>)
    ensures FailedResults(Outcomes(ts)) == [] <==> forall i :: 0 <= i < |ts| ==> !Fails(ts[i])
  {
    OutcomesFail(ts);
    NoFailedResults(Outcomes(ts));
  }

  /** Result `i` of the outcomes is the run of test `i`. */
  lemma {:induction false} OutcomesFail(ts: seq<TestCase>)
    ensures forall i :: 0 <= i < |ts| ==> Outcomes(ts)[i] == RunTest(ts[i])
  {
    if ts != [] {
      var init := ts[..|ts| - 1];
      OutcomesFail(init);
      forall i | 0 <= i < |ts| ensures Outcomes(ts)[i] == RunTest(ts[i]) {
        if i < |init| { assert ts[i] == init[i]; }
      }
    }
  }

  /** No result is kept exactly when every result passed. */
  lemma {:induction false} NoFailedResults(rs: seq<ResultState>)
    ensures FailedResults(rs) == [] <==> forall i :: 0 <= i < |rs| ==> !Failed(rs[i])
  {
    if rs != [] {
      var init := rs[..|rs| - 1];
      NoFailedResults(init);
      assert forall i :: 0 <= i < |init| ==> init[i] == rs[i];
    }
  }

  /** Passed plus failed is the number of results: the summary's counts add up. */
  lemma {:induction false} CountsAddUp(rs: seq<ResultState>)
    ensures PassCount(rs) + |FailedResults(rs)| == |rs|
    decreases |rs|
  {
    if rs != [] {
      var init, last := rs[..|rs| - 1], rs[|rs| - 1];
      CountsAddUp(init);
      PassCountSplit(init, last);
      assert init + [last] == rs;
    }
  }

  lemma {:induction false} PassCountSplit(rs: seq<ResultState>, r: ResultState)
    ensures PassCount(rs + [r]) == PassCount(rs) + (if Failed(r) then 0 else 1)
    decreases |rs|
  {
    if rs == [] {
      assert [r][1..] == [];
    } else {
      assert (rs + [r])[1..] == rs[1..] + [r];
      PassCountSplit(rs[1..], r);
    }
  }

  /** The output of `runAllTest` in three parts: progress lines, details (only when some test failed), summary. */
  lemma RunAllTextParts(rs: seq<ResultState>, printSummary: bool)
    ensures var failed := FailedResults(rs);
      RunAllText(rs, printSummary) ==
        ProgressText(rs) + (if failed == [] then "" else ReportsText(failed, |rs| > 1))
                         + (if printSummary then SummaryText(|rs|, |failed|) else "")
  {
    assert ProgressText(rs) + "" == ProgressText(rs);
  }

  /** With some failure, the summary names the passed count, the total and the failed count. */
  lemma SummaryCounts(rs: seq<ResultState>)
    requires FailedResults(rs) != []
    ensures var failed := |FailedResults(rs)|;
      SummaryText(|rs|, failed) ==
        NatText(PassCount(rs)) + "/" + NatText(|rs|) + " tests passed (" + NatText(failed) + " failure(s))\n"
  {
    CountsAddUp(rs);
  }

  /** A runner with no tests passes and says so. */
  lemma EmptyRunner()
    ensures RunAllText(Outcomes([]), true) == "All 0 tests passed\n"
  {
    assert NatText(0) == "0";
  }
}
