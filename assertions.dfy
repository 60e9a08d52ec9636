/**
 * The assertion macros of the framework (`JSONTEST_ASSERT`,
 * `JSONTEST_ASSERT_PRED`, `MINITEST_ASSERT_EQUAL` through `checkEqual`, and a
 * bare `operator<<`) and a test body seen as a tree of such calls.
 */
module Assertions {
  import opened Wrappers
  import opened Text
  import opened FailureModel
  import opened TestResults

  /** One statement of a test body that talks to the result. */
  datatype Op =
    /** `JSONTEST_ASSERT(expr) << trailer`, with `cond` the value of `expr`. */
    | Assert(cond: bool, file: Option<string>, line: nat, expr: string, trailer: string)
    /** `MINITEST_ASSERT_EQUAL(expected, actual)` on integers. */
    | AssertEqual(expected: int, actual: int, file: Option<string>, line: nat, expr: string)
    /** `JSONTEST_ASSERT_PRED(expr)`, where evaluating `expr` runs `body`. */
    | AssertPred(file: Option<string>, line: nat, expr: string, body: seq<Op>)
    /** `*result_ << text`. */
    | Append(text: string)

  /** The message `checkEqual` builds for a mismatch. */
  function MismatchMessage(expected: string, actual: string): string {
    "Expected: " + expected + "\n" + "Actual  : " + actual
  }

  /**
   * `checkEqual`: nothing happens when the values agree; otherwise a failure
   * is added and the expected and actual texts go to its message.
   */
  function CheckEqualSpec<V(==)>(s: ResultState, expected: V, actual: V, render: V -> string,
                                 file: Option<string>, line: nat, expr: string): ResultState
    requires Valid(s)
  {
    if expected == actual then s
    else FailWith(s, file, line, Some(expr), MismatchMessage(render(expected), render(actual)))
  }

  /**
   * The effect of one statement. Whatever it does, the state stays valid, the
   * chain is the same frames as before (popped back to where it was), the
   * record sequence only grows, and the counters never go down.
   */
  function ExecOp(s: ResultState, op: Op): (r: ResultState)
    requires Valid(s)
    ensures Follows(s, r)
    decreases op, 1
  {
    match op
    case Assert(cond, file, line, expr, trailer) =>
      if cond then s
      else
        FailWithEffect(s, file, line, Some(expr), trailer);
        FailWith(s, file, line, Some(expr), trailer)
    case AssertEqual(expected, actual, file, line, expr) =>
      if expected != actual then
        FailWithEffect(s, file, line, Some(expr), MismatchMessage(IntText(expected), IntText(actual)));
        CheckEqualSpec(s, expected, actual, IntText, file, line, expr)
      else s
    case AssertPred(file, line, expr, body) =>
      PushEffect(s, file, line, expr);
      var b := ExecOps(Push(s, file, line, expr), body);
      PushThenPopFollows(s, file, line, expr, b);
      Pop(b)
    case Append(text) =>
      AddToLastFailureFollows(s, text);
      AddToLastFailure(s, text)
  }

  /** The effect of a sequence of statements, in order. */
  function ExecOps(s: ResultState, ops: seq<Op>): (r: ResultState)
    requires Valid(s)
    ensures Follows(s, r)
    decreases ops, 0
  {
    if ops == [] then s
    else
      var t := ExecOp(s, ops[0]);
      var r := ExecOps(t, ops[1..]);
      FollowsTransitive(s, t, r);
      r
  }

  // ---------------------------------------------------------------------------
  // Properties of the macros

  /** `checkEqual` on equal values leaves the result exactly as it was. */
  lemma CheckEqualAgreeing<V>(s: ResultState, value: V, render: V -> string,
                                  file: Option<string>, line: nat, expr: string)
    requires Valid(s)
    ensures CheckEqualSpec(s, value, value, render, file, line, expr) == s
  {
  }

  /**
   * On differing values `checkEqual` adds the failure exactly as `addFailure`
   * would and its record's message is the expected text then the actual text.
   */
  lemma CheckEqualMismatch<V>(s: ResultState, expected: V, actual: V, render: V -> string,
                                  file: Option<string>, line: nat, expr: string)
    requires Valid(s) && expected != actual
    ensures var f, r := AddFailure(s, file, line, Some(expr)), CheckEqualSpec(s, expected, actual, render, file, line, expr);
      && |r.failures| == |f.failures|
      && r.failures[..|f.failures| - 1] == f.failures[..|f.failures| - 1]
      && r.failures[|r.failures| - 1] == Failure(file, line, expr, MismatchMessage(render(expected), render(actual)), |s.chain|)
      && r.messageTarget == Some(|r.failures| - 1)
      && r.chain == f.chain
  {
    var text := MismatchMessage(render(expected), render(actual));
    assert CheckEqualSpec(s, expected, actual, render, file, line, expr) == FailWith(s, file, line, Some(expr), text);
    FailWithEffect(s, file, line, Some(expr), text);
    AddFailureLastRecord(s, file, line, Some(expr));
  }

  /**
   * Outside any predicate, a failed `MINITEST_ASSERT_EQUAL` on integers appends
   * exactly one level-0 record carrying the mismatch message, and nothing else.
   */
  lemma TopLevelMismatch(s: ResultState, expected: int, actual: int, file: Option<string>, line: nat, expr: string)
    requires Valid(s) && s.chain == [] && expected != actual
    ensures var r := ExecOp(s, AssertEqual(expected, actual, file, line, expr));
      && r.failures == s.failures + [Failure(file, line, expr, MismatchMessage(IntText(expected), IntText(actual)), 0)]
      && r.chain == [] && r.messageTarget == Some(|s.failures|)
  {
    var f := AddFailure(s, file, line, Some(expr));
    var r := CheckEqualSpec(s, expected, actual, IntText, file, line, expr);
    CheckEqualMismatch(s, expected, actual, IntText, file, line, expr);
    AddFailureWithoutFrames(s, file, line, Some(expr));
    assert f.failures[..|s.failures|] == s.failures;
    assert r.failures == r.failures[..|s.failures|] + [r.failures[|s.failures|]];
  }

  /**
   * `JSONTEST_ASSERT_PRED` pops exactly the frame it pushed: afterwards the
   * chain holds the frames it held before, the next id has moved past the
   * pushed one, and records only grew.
   */
  lemma AssertPredRestoresChain(s: ResultState, file: Option<string>, line: nat, expr: string, body: seq<Op>)
    requires Valid(s)
    ensures var r := ExecOp(s, AssertPred(file, line, expr, body));
      && SameFrames(s.chain, r.chain)
      && s.predicateId < r.predicateId
      && Grows(s.failures, r.failures)
  {
    var p := Push(s, file, line, expr);
    PushEffect(s, file, line, expr);
    var b := ExecOps(p, body);
    assert Follows(p, b);
  }

  /**
   * When the body of a predicate recorded a failure, the predicate's own frame
   * was reported: after the macro the message target is the record describing
   * the predicate expression, at the depth where the predicate was called.
   */
  lemma AssertPredTargetsOwnRecord(s: ResultState, file: Option<string>, line: nat, expr: string, body: seq<Op>)
    requires Valid(s)
    requires |s.failures| < |ExecOp(s, AssertPred(file, line, expr, body)).failures|
    ensures var r := ExecOp(s, AssertPred(file, line, expr, body));
      && r.messageTarget.Some? && r.messageTarget.value < |r.failures|
      && var f := r.failures[r.messageTarget.value];
        f.expr == expr && f.file == file && f.line == line && f.nestingLevel == |s.chain|
  {
    var b := AssertPredUnfold(s, file, line, expr, body);
    PopEffect(b);
    assert |s.failures| < |b.failures|;
    PopTargetsReportedTail(s, file, line, expr, b);
  }

  /** `JSONTEST_ASSERT_PRED` is the pop of the state its body leaves after the push. */
  lemma AssertPredUnfold(s: ResultState, file: Option<string>, line: nat, expr: string, body: seq<Op>)
    returns (b: ResultState)
    requires Valid(s)
    ensures Valid(Push(s, file, line, expr))
    ensures b == ExecOps(Push(s, file, line, expr), body)
    ensures Follows(Push(s, file, line, expr), b)
    ensures ExecOp(s, AssertPred(file, line, expr, body)) == Pop(b)
  {
    PushEffect(s, file, line, expr);
    b := ExecOps(Push(s, file, line, expr), body);
  }

  /** Popping a pushed frame after some record was added targets that frame's record. */
  lemma PopTargetsReportedTail(s: ResultState, file: Option<string>, line: nat, expr: string, b: ResultState)
    requires Valid(s)
    requires Follows(Push(s, file, line, expr), b) && |s.failures| < |b.failures|
    ensures var r := Pop(b);
      && r.messageTarget.Some? && r.messageTarget.value < |r.failures|
      && var f := r.failures[r.messageTarget.value];
        f.expr == expr && f.file == file && f.line == line && f.nestingLevel == |s.chain|
  {
    var p, d := Push(s, file, line, expr), |s.chain|;
    assert p.chain[d] == Frame(s.predicateId, file, line, expr, None);
    ReportedFrameDescribes(p, b, d);
  }

  /** A frame of `p` that a later state reported is described by its record. */
  lemma ReportedFrameDescribes(p: ResultState, b: ResultState, d: nat)
    requires Follows(p, b) && |p.failures| < |b.failures| && d < |p.chain|
    ensures b.chain[d].failure.Some?
    ensures var j := b.chain[d].failure.value;
      && j < |b.failures|
      && b.failures[j].expr == p.chain[d].expr && b.failures[j].file == p.chain[d].file
      && b.failures[j].line == p.chain[d].line && b.failures[j].nestingLevel == d
  {
    assert b.chain[d] == p.chain[d].(failure := b.chain[d].failure);
  }

  /**
   * Statements that add no record: assertions that hold, and predicates whose
   * bodies hold throughout. A bare `operator<<` is left out, since it may grow
   * an earlier record's message.
   */
  predicate Passing(op: Op)
    decreases op
  {
    match op
    case Assert(cond, _, _, _, _) => cond
    case AssertEqual(expected, actual, _, _, _) => expected == actual
    case AssertPred(_, _, _, body) => forall i :: 0 <= i < |body| ==> Passing(body[i])
    case Append(_) => false
  }

  /**
   * A body whose assertions all hold, inside predicates or not, leaves the
   * records, the chain, the watermark and the message target exactly as they
   * were, so a fresh result stays unfailed. Only the predicate id counter moves,
   * and only when a predicate ran: a flat body leaves the result untouched.
   */
  lemma {:induction false} PassingBodyLeavesResult(s: ResultState, ops: seq<Op>)
    requires Valid(s)
    requires forall i :: 0 <= i < |ops| ==> Passing(ops[i])
    ensures var r := ExecOps(s, ops);
      && r == s.(predicateId := r.predicateId) && s.predicateId <= r.predicateId
      && ((forall i :: 0 <= i < |ops| ==> !ops[i].AssertPred?) ==> r == s)
    decreases ops, 0
  {
    if ops != [] {
      var t := ExecOp(s, ops[0]);
      PassingOpLeavesResult(s, ops[0]);
      PassingBodyLeavesResult(t, ops[1..]);
    }
  }

  /** One statement that holds changes at most the predicate id counter. */
  lemma {:induction false} PassingOpLeavesResult(s: ResultState, op: Op)
    requires Valid(s) && Passing(op)
    ensures var r := ExecOp(s, op);
      && r == s.(predicateId := r.predicateId) && s.predicateId <= r.predicateId
      && (!op.AssertPred? ==> r == s)
    decreases op, 1
  {
    match op
    case Assert(_, _, _, _, _) =>
    case AssertEqual(_, _, _, _, _) =>
    case AssertPred(file, line, expr, body) =>
      var p := Push(s, file, line, expr);
      PushEffect(s, file, line, expr);
      PassingBodyLeavesResult(p, body);
      var b := ExecOps(p, body);
      assert b.chain[..|b.chain| - 1] == s.chain;
  }

  // ---------------------------------------------------------------------------
  // The macros as methods on a result object

  /** `JSONTEST_ASSERT(expr) << trailer`: `addFailure` exactly when the condition is false. */
  method AssertTrue(result: TestResult, cond: bool, file: Option<string>, line: nat, expr: string, trailer: string)
    requires result.Valid()
    modifies result
    ensures result.Valid()
    ensures cond ==> result.Model() == old(result.Model())
    ensures !cond ==> result.Model() == FailWith(old(result.Model()), file, line, Some(expr), trailer)
  {
    if cond {
    } else {
      result.AddFailure(file, line, Some(expr));
      result.AddToLastFailure(trailer);
    }
  }

  /** `checkEqual`: on a mismatch, `addFailure` then the expected and actual texts, piece by piece. */
  method CheckEqual<V(==)>(result: TestResult, expected: V, actual: V, render: V -> string,
                           file: Option<string>, line: nat, expr: string)
    requires result.Valid()
    modifies result
    ensures result.Valid()
    ensures result.Model() == CheckEqualSpec(old(result.Model()), expected, actual, render, file, line, expr)
  {
    if expected != actual {
      result.AddFailure(file, line, Some(expr));
      ghost var f := result.Model();
      ghost var sent := "Expected: ";
      result.AddToLastFailure("Expected: ");
      result.AddToLastFailure(render(expected));
      AddToLastFailureTwice(f, sent, render(expected));
      sent := sent + render(expected);
      result.AddToLastFailure("\n");
      AddToLastFailureTwice(f, sent, "\n");
      sent := sent + "\n";
      result.AddToLastFailure("Actual  : ");
      AddToLastFailureTwice(f, sent, "Actual  : ");
      sent := sent + "Actual  : ";
      result.AddToLastFailure(render(actual));
      AddToLastFailureTwice(f, sent, render(actual));
      sent := sent + render(actual);
      assert sent == MismatchMessage(render(expected), render(actual));
    }
  }

  /** `JSONTEST_ASSERT_PRED(expr)`: push a frame, evaluate the predicate's body, pop the frame. */
  method AssertPredicate(result: TestResult, file: Option<string>, line: nat, expr: string, body: seq<Op>)
    requires result.Valid()
    modifies result
    ensures result.Valid()
    ensures result.Model() == ExecOp(old(result.Model()), AssertPred(file, line, expr, body))
    decreases body, 1
  {
    result.PushPredicateContext(file, line, expr);
    RunOps(result, body);
    result.PopPredicateContext();
  }

  /** One statement of a test body. */
  method RunOp(result: TestResult, op: Op)
    requires result.Valid()
    modifies result
    ensures result.Valid()
    ensures result.Model() == ExecOp(old(result.Model()), op)
    decreases op, 2
  {
    match op {
      case Assert(cond, file, line, expr, trailer) =>
        AssertTrue(result, cond, file, line, expr, trailer);
      case AssertEqual(expected, actual, file, line, expr) =>
        CheckEqual(result, expected, actual, IntText, file, line, expr);
      case AssertPred(file, line, expr, body) =>
        AssertPredicate(result, file, line, expr, body);
      case Append(text) =>
        result.AddToLastFailure(text);
    }
  }

  /** A test body: its statements in order. */
  method RunOps(result: TestResult, ops: seq<Op>)
    requires result.Valid()
    modifies result
    ensures result.Valid()
    ensures result.Model() == ExecOps(old(result.Model()), ops)
    decreases ops, 0
  {
    ghost var s := result.Model();
    var i := 0;
    while i < |ops|
      invariant i <= |ops|
      invariant result.Valid()
      invariant ExecOps(result.Model(), ops[i..]) == ExecOps(s, ops)
    {
      assert ops[i..][1..] == ops[i + 1..];
      RunOp(result, ops[i]);
      i := i + 1;
    }
  }
}
