/**
 * Whole test bodies run through the model: the example fixture shipped with
 * the framework, and a failure inside nested predicates.
 */
module Scenarios {
  import opened Wrappers
  import opened Text
  import opened FailureModel
  import opened Assertions
  import opened Report
  import opened Runners

  /**
   * The body of `ValueTest/ValueTest1`: `a` is 2 and `MINITEST_ASSERT_EQUAL(a, 1)`
   * fails at line 21; then `failure()` has `a` equal to 3 and
   * `MINITEST_ASSERT_EQUAL(a, 2)` fails at line 13.
   */
  function ValueTest1(file: string): TestCase {
    TestCase("ValueTest/ValueTest1", [
      AssertEqual(2, 1, Some(file), 21, "a == 1"),
      AssertEqual(3, 2, Some(file), 13, "a == 2")])
  }

  /**
   * Both assertions fail at the top level: two records at nesting level 0, in
   * order, whose messages give the first macro argument as the expected value.
   */
  lemma ValueTest1Records(file: string)
    ensures RunTest(ValueTest1(file)).failures == [
      Failure(Some(file), 21, "a == 1", "Expected: 2\nActual  : 1", 0),
      Failure(Some(file), 13, "a == 2", "Expected: 3\nActual  : 2", 0)]
  {
    TwoTopLevelMismatches(Initial().(name := "ValueTest/ValueTest1"),
      2, 1, Some(file), 21, "a == 1", 3, 2, Some(file), 13, "a == 2");
    SmallMessages();
  }

  /** Two failing integer comparisons outside any predicate on a result with no record yet. */
  lemma TwoTopLevelMismatches(s: ResultState,
                              e1: int, a1: int, f1: Option<string>, l1: nat, x1: string,
                              e2: int, a2: int, f2: Option<string>, l2: nat, x2: string)
    requires Valid(s) && s.chain == [] && s.failures == [] && e1 != a1 && e2 != a2
    ensures ExecOps(s, [AssertEqual(e1, a1, f1, l1, x1), AssertEqual(e2, a2, f2, l2, x2)]).failures == [
      Failure(f1, l1, x1, MismatchMessage(IntText(e1), IntText(a1)), 0),
      Failure(f2, l2, x2, MismatchMessage(IntText(e2), IntText(a2)), 0)]
  {
    var op1, op2 := AssertEqual(e1, a1, f1, l1, x1), AssertEqual(e2, a2, f2, l2, x2);
    var s1 := ExecOp(s, op1);
    TopLevelMismatch(s, e1, a1, f1, l1, x1);
    TopLevelMismatch(s1, e2, a2, f2, l2, x2);
    TwoSteps(s, op1, op2);
  }

  lemma SmallMessages()
    ensures MismatchMessage(IntText(2), IntText(1)) == "Expected: 2\nActual  : 1"
    ensures MismatchMessage(IntText(3), IntText(2)) == "Expected: 3\nActual  : 2"
  {
    assert IntText(1) == "1" && IntText(2) == "2" && IntText(3) == "3";
  }

  lemma TwoSteps(s: ResultState, a: Op, b: Op)
    requires Valid(s)
    ensures ExecOps(s, [a, b]) == ExecOp(ExecOp(s, a), b)
  {
    var t := ExecOp(s, a);
    assert [a, b][1..] == [b];
    assert ExecOps(s, [a, b]) == ExecOps(t, [b]);
    assert [b][1..] == [];
    assert ExecOps(t, [b]) == ExecOps(ExecOp(t, b), []);
  }

  /**
   * A runner holding one failing test: its progress line (saying FAILED), its
   * details come without the test-name header (there is a single test), and
   * the summary counts no passed test out of one.
   */
  lemma SingleFailingTest(t: TestCase)
    requires Fails(t)
    ensures RunAllText(Outcomes([t]), true) ==
      StatusLine(RunTest(t)) + FailureReport(RunTest(t), false) + "0/1 tests passed (1 failure(s))\n"
  {
    assert [t][..0] == [];
    assert Outcomes([t]) == [RunTest(t)];
    SingleFailedResult(RunTest(t));
  }

  lemma SingleFailedResult(r: ResultState)
    requires Failed(r)
    ensures RunAllText([r], true) == StatusLine(r) + FailureReport(r, false) + "0/1 tests passed (1 failure(s))\n"
  {
    SingleResult(r);
    OneOfOneFailed();
    assert RunAllText([r], true) == ProgressText([r]) + ReportsText([r], false) + SummaryText(1, 1);
  }

  /** The lists of a single result: kept when it failed, one progress line, its own details. */
  lemma SingleResult(r: ResultState)
    ensures FailedResults([r]) == (if Failed(r) then [r] else [])
    ensures ProgressText([r]) == StatusLine(r)
    ensures ReportsText([r], false) == FailureReport(r, false)
  {
    assert [r][..0] == [];
  }

  lemma OneOfOneFailed()
    ensures SummaryText(1, 1) == "0/1 tests passed (1 failure(s))\n"
  {
    SmallNumbers();
    assert SummaryText(1, 1) == "0" + "/" + "1" + " tests passed (" + "1" + " failure(s))\n";
    assert "0" + "/" + "1" + " tests passed (" + "1" + " failure(s))\n" == "0/1 tests passed (1 failure(s))\n";
  }

  lemma SmallNumbers()
    ensures NatText(0) == "0" && NatText(1) == "1"
  {
    assert DigitChar(0) == '0' && DigitChar(1) == '1';
  }

  lemma ValueTest1Fails(file: string)
    ensures Fails(ValueTest1(file))
  {
    ValueTest1Records(file);
  }

  /**
   * A failing `JSONTEST_ASSERT` inside a predicate called from a predicate,
   * followed by text streamed after both predicates returned: three records
   * at levels 0, 1 and 2 in call order, and the text lands on the outer
   * predicate's record, the message target once both frames were popped.
   */
  lemma NestedPredicates(s: ResultState, file: Option<string>, l1: nat, l2: nat, l3: nat,
                         outer: string, inner: string, expr: string, text: string)
    requires Valid(s) && s.chain == [] && s.failures == []
    ensures var body := [AssertPred(file, l1, outer, [AssertPred(file, l2, inner, [Assert(false, file, l3, expr, "")])]),
                         Append(text)];
      ExecOps(s, body).failures == [
        Failure(file, l1, outer, text, 0),
        Failure(file, l2, inner, "", 1),
        Failure(file, l3, expr, "", 2)]
  {
    var innerPred := AssertPred(file, l2, inner, [Assert(false, file, l3, expr, "")]);
    var outerPred := AssertPred(file, l1, outer, [innerPred]);
    var q0 := ExecOp(s, outerPred);
    NestedPops(s, file, l1, l2, l3, outer, inner, expr);
    TwoSteps(s, outerPred, Append(text));
    assert ExecOps(s, [outerPred, Append(text)]) == AddToLastFailure(q0, text);
    assert q0.failures[0].message + text == text;
  }

  /** After both predicates return, the records are as the inner failure left them and the target is the outer record. */
  lemma NestedPops(s: ResultState, file: Option<string>, l1: nat, l2: nat, l3: nat,
                   outer: string, inner: string, expr: string)
    requires Valid(s) && s.chain == [] && s.failures == []
    ensures var innerPred := AssertPred(file, l2, inner, [Assert(false, file, l3, expr, "")]);
      var q0 := ExecOp(s, AssertPred(file, l1, outer, [innerPred]));
      && q0.failures == [Failure(file, l1, outer, "", 0), Failure(file, l2, inner, "", 1), Failure(file, l3, expr, "", 2)]
      && q0.messageTarget == Some(0)
  {
    var op := Assert(false, file, l3, expr, "");
    var innerPred := AssertPred(file, l2, inner, [op]);
    var p1 := Push(s, file, l1, outer);
    PushEffect(s, file, l1, outer);
    var p2 := Push(p1, file, l2, inner);
    PushEffect(p1, file, l2, inner);
    InnerRecords(s, file, l1, l2, l3, outer, inner, expr);
    OneStep(p2, op);
    EmptyTrailer(p2, file, l3, expr);
    var f := AddFailure(p2, file, l3, Some(expr));
    assert ExecOp(p1, innerPred) == Pop(f);
    OneStep(p1, innerPred);
  }

  /** The failure deep inside: a record per frame and one for the assertion; each frame points at its own. */
  lemma InnerRecords(s: ResultState, file: Option<string>, l1: nat, l2: nat, l3: nat,
                     outer: string, inner: string, expr: string)
    requires Valid(s) && s.chain == [] && s.failures == []
    ensures var p2 := Push(Push(s, file, l1, outer), file, l2, inner);
      var f := AddFailure(p2, file, l3, Some(expr));
      && f.failures == [Failure(file, l1, outer, "", 0), Failure(file, l2, inner, "", 1), Failure(file, l3, expr, "", 2)]
      && |f.chain| == 2 && f.chain[0].failure == Some(0) && f.chain[1].failure == Some(1)
  {
    var p1 := Push(s, file, l1, outer);
    var p2 := Push(p1, file, l2, inner);
    PushEffect(s, file, l1, outer);
    PushEffect(p1, file, l2, inner);
    AddFailureNewChain(p2, file, l3, Some(expr));
    AddFailureShape(p2, file, l3, Some(expr));
  }

  /** `JSONTEST_ASSERT` with nothing streamed after it is `addFailure` alone. */
  lemma EmptyTrailer(s: ResultState, file: Option<string>, line: nat, expr: string)
    requires Valid(s)
    ensures ExecOp(s, Assert(false, file, line, expr, "")) == AddFailure(s, file, line, Some(expr))
  {
    var f := AddFailure(s, file, line, Some(expr));
    AddFailureLastRecord(s, file, line, Some(expr));
    var t := |f.failures| - 1;
    assert f.failures[t].message + "" == f.failures[t].message;
    assert f.failures[t].(message := f.failures[t].message + "") == f.failures[t];
    assert f.failures[t := f.failures[t]] == f.failures;
  }

  lemma OneStep(s: ResultState, a: Op)
    requires Valid(s)
    ensures ExecOps(s, [a]) == ExecOp(s, a)
  {
    assert [a][1..] == [];
  }
}
