/**
 * `minitest::TestResult` as a class whose methods update its fields in place,
 * each proved against the specification function of `FailureModel`.
 */
module TestResults {
  import opened Wrappers
  import opened Text
  import opened FailureModel

  class TestResult {
    var name: string
    var failures: seq<Failure>
    /** The predicate chain below the root frame, first pushed first. */
    var chain: seq<Frame>
    var predicateId: nat
    var lastUsedPredicateId: nat
    /** Index of the record that chained messages go to. */
    var messageTarget: Option<nat>

    function Model(): ResultState
      reads this
    {
      ResultState(name, failures, chain, predicateId, lastUsedPredicateId, messageTarget)
    }

    ghost predicate Valid()
      reads this
    {
      FailureModel.Valid(Model())
    }

    /** A fresh result: id counter 1, watermark 0, no frame, no record, no target. */
    constructor ()
      ensures Model() == Initial() && Valid()
      ensures !Failed()
    {
      name := "";
      failures := [];
      chain := [];
      predicateId := 1;
      lastUsedPredicateId := 0;
      messageTarget := None;
    }

    method SetTestName(n: string)
      modifies this`name
      ensures Model() == old(Model()).(name := n)
    {
      name := n;
    }

    /**
     * `failed()`: true exactly when some failure was recorded; on a valid
     * result that is exactly when chained text has a record to go to.
     */
    function Failed(): (f: bool)
      reads this
      ensures f <==> FailureModel.Failed(Model())
      ensures Valid() ==> (f <==> messageTarget.Some?)
    {
      failures != []
    }

    /** `addFailureInfo`: append one record with an empty message. */
    method AddFailureInfo(file: Option<string>, line: nat, expr: Option<string>, nestingLevel: nat)
      modifies this`failures
      ensures failures == old(failures) + [FailureInfo(file, line, expr, nestingLevel)]
    {
      var failure := FailureInfo(file, line, expr, nestingLevel);
      failures := failures + [failure];
    }

    /**
     * `addFailure`: walk the chain from the root's successor, reporting each
     * frame above the watermark at the current depth, then record the failing
     * assertion one level below the last frame and target messages at it.
     */
    method AddFailure(file: Option<string>, line: nat, expr: Option<string>)
      requires Valid()
      modifies this
      ensures Valid()
      ensures Model() == FailureModel.AddFailure(old(Model()), file, line, expr)
    {
      ghost var s := Model();
      var nestingLevel: nat := 0;
      var k := 0;
      while k < |chain|
        invariant k <= |chain| == |s.chain|
        invariant nestingLevel == k
        invariant Walk(Model(), k) == Walk(s, 0)
        invariant name == s.name && predicateId == s.predicateId && messageTarget == s.messageTarget
      {
        var frame := chain[k];
        if frame.id > lastUsedPredicateId {
          lastUsedPredicateId := frame.id;
          AddFailureInfo(frame.file, frame.line, Some(frame.expr), nestingLevel);
          chain := chain[k := frame.(failure := Some(|failures| - 1))];
        }
        nestingLevel := nestingLevel + 1;
        k := k + 1;
      }
      AddFailureInfo(file, line, expr, nestingLevel);
      messageTarget := Some(|failures| - 1);
      AddFailureValid(s, file, line, expr);
    }

    /**
     * `popPredicateContext`: walk from the root to the frame before the tail,
     * retarget messages at the tail's record if it has one, and unlink the tail.
     */
    method PopPredicateContext()
      requires Valid()
      modifies this
      ensures Valid()
      ensures Model() == Pop(old(Model()))
    {
      // `lastNode` counts the frames up to and including the node the walk stops at (0 is the root)
      var lastNode := 0;
      while lastNode < |chain| && lastNode + 1 < |chain|
        invariant lastNode <= |chain|
        invariant chain == [] || lastNode < |chain|
      {
        lastNode := lastNode + 1;
      }
      if lastNode < |chain| {
        var tail := chain[lastNode];
        if tail.failure.Some? {
          messageTarget := tail.failure;
        }
      }
      chain := chain[..lastNode];
      PopEffect(old(Model()));
    }

    /** The push half of `JSONTEST_ASSERT_PRED`: link a new tail frame and bump the id counter. */
    method PushPredicateContext(file: Option<string>, line: nat, expr: string)
      requires Valid()
      modifies this
      ensures Valid()
      ensures Model() == Push(old(Model()), file, line, expr)
    {
      var context := Frame(predicateId, file, line, expr, None);
      chain := chain + [context];
      predicateId := predicateId + 1;
      PushEffect(old(Model()), file, line, expr);
    }

    /** `addToLastFailure`: append to the target record's message, if there is a target. */
    method AddToLastFailure(message: string)
      requires Valid()
      modifies this
      ensures Valid()
      ensures Model() == FailureModel.AddToLastFailure(old(Model()), message)
    {
      match messageTarget {
        case Some(t) =>
          failures := failures[t := failures[t].(message := failures[t].message + message)];
        case None =>
      }
      AddToLastFailureEffect(old(Model()), message);
    }

    /** `operator<<(bool)`. */
    method AppendBool(value: bool)
      requires Valid()
      modifies this
      ensures Valid()
      ensures Model() == FailureModel.AddToLastFailure(old(Model()), if value then "true" else "false")
    {
      AddToLastFailure(BoolText(value));
    }

    /** `operator<<(int64_t)`: the decimal text of the value. */
    method AppendInt64(value: Int64)
      requires Valid()
      modifies this
      ensures Valid()
      ensures Model() == FailureModel.AddToLastFailure(old(Model()), IntText(value))
    {
      AddToLastFailure(IntText(value));
    }

    /** `operator<<(uint64_t)`: the decimal text of the value. */
    method AppendUint64(value: Uint64)
      requires Valid()
      modifies this
      ensures Valid()
      ensures Model() == FailureModel.AddToLastFailure(old(Model()), NatText(value))
    {
      AddToLastFailure(NatText(value));
    }
  }
}
