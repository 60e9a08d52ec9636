# minitest: failure bookkeeping of `TestResult`, the assertion macros and the runner

This project models the core of the minitest unit-testing framework (`minitest::TestResult`,
`minitest::Runner` and the assertion macros of `MiniTest.h`) in Dafny and proves what that code
promises.

A test body talks to a `TestResult`. An assertion that fails calls `addFailure`. That call walks the
chain of in-flight predicate frames pushed by `JSONTEST_ASSERT_PRED`. It reports every frame whose id
is above the watermark `lastUsedPredicateId_` as a record, at increasing nesting depth. It then
appends the failing assertion and makes it the *message target*. Text streamed with `<<` goes to the
target. Popping a frame that was reported moves the target back to that frame's record.
`printFailure` renders the records, and `runAllTest` runs every registered test on a fresh result,
keeps the failed ones and prints a summary.

Modules:

- `Wrappers`: an `Option` type. A null `const char*` is `None`.
- `Text`:
  - the decimal text of integers (`std::to_string`) with a reference reader `ParseInt`;
  - `"true"` / `"false"`;
  - `indentText` as a loop method, proved against the function `Indented`, with the reference
    inverse `Dedent`.
- `FailureModel`:
  - the state of a result as a value: records, the predicate chain (root frame excluded), the
    next id, the watermark and the message target;
  - the operations as functions of that value: `AddFailure` is a fold (`Walk`) over the chain, plus
    `Push`, `Pop` and `AddToLastFailure`;
  - the invariant `Valid` and the lemmas about them.
- `TestResults`: class `TestResult`, whose fields are the ones the C++ class updates in place.
  `AddFailure`, `PopPredicateContext`, `PushPredicateContext`, `AddToLastFailure` and the three
  `Append` overloads are proved to move `Model()` exactly as the matching `FailureModel` function
  does. `SetTestName` and `AddFailureInfo` state their new fields directly. `AddFailure` and
  `PopPredicateContext` keep the C++ loops.
- `Assertions`:
  - `JSONTEST_ASSERT`, `checkEqual` (reached through `MINITEST_ASSERT_EQUAL`), `JSONTEST_ASSERT_PRED`
    and a bare `<<` as methods on a `TestResult`;
  - a test body as a tree of such statements (`Op`), given meaning by `ExecOp`/`ExecOps`.
- `Report`: the text of `printFailure`, as a specification function and as the loop methods that
  build it.
- `Runners`: class `Runner`, holding the registered tests in order, with `add`, `testNameAt`,
  `runTestAt`, `runAllTest` and `testIndex`. The console output of `runAllTest` is returned as a
  string and specified by `RunAllText` over the results of the tests in order.
- `Scenarios`: whole bodies run through the model:
  - the `ValueTest/ValueTest1` fixture of the framework's own test file;
  - a runner holding one failing test;
  - a failure two predicates deep.

Pointers are modelled as indices. A frame's `failure_` and the result's `messageTarget_` point into
a `std::deque` that only grows with `push_back`, which never moves existing elements. So the index
of a record names the same record for the whole life of the result.

`checkEqual` (src/MiniTest.h:165-174, called from src/MiniTest.h:210-212) treats the macro's first
argument as the expected value. So `MINITEST_ASSERT_EQUAL(a, 1)` with `a == 2` reports `Expected: 2`
and `Actual  : 1` (`Scenarios.ValueTest1Records`).

`JSONTEST_ASSERT_PRED` (src/MiniTest.h:198-207) names its frame type `JsonTest::PredicateContext`,
but the header declares it in namespace `minitest`. The model follows the push/pop protocol the macro
evidently intends.

The comment above the record loop (src/MiniTest.cpp:81) says the records are printed in reverse, but
the loop prints them in insertion order. The model prints them in insertion order too
(`Report.RenderFailures`, `Report.PrintRecords`).

The comment on `predicateId_` (src/MiniTest.h:52-53) says that `addPredicateContext()` decreases the
counter. No function of that name exists, and no code decreases the counter: the predicate macro
only raises it. The model only raises it too (`FailureModel.PushThenPop`).

## Model

| member | source | states |
|---|---|---|
| TestResults.TestResult.constructor | src/MiniTest.cpp:8-13 | A fresh result has no frame below the root, no record, next id 1, watermark 0 and no message target. The state is valid and `failed()` is false. |
| FailureModel.Initial | src/MiniTest.h:54-101 | The initial counters (id 1, watermark 0, null target) satisfy the invariant, so the first pushed frame is above the watermark. |
| TestResults.TestResult.SetTestName | src/MiniTest.cpp:15 | Only the name changes. |
| TestResults.TestResult.Failed | src/MiniTest.cpp:70 | `failed()` is true exactly when the record sequence is non-empty. On a valid result that is exactly when there is a message target. |
| FailureModel.FollowsKeepsFailed | src/MiniTest.cpp:70 | Once a result has failed, every later step of the test body leaves it failed, with a message target. |
| TestResults.TestResult.AddFailureInfo | src/MiniTest.cpp:42-52 | Appends one record with the given file, line and nesting level and an empty message. A null expression gives an empty expression. |
| TestResults.TestResult.AddFailure | src/MiniTest.cpp:17-40 | The loop over the chain plus the final append moves the state exactly as `FailureModel.AddFailure` and keeps it valid. |
| FailureModel.AddFailureEffect | src/MiniTest.cpp:17-40 | Let `p` be the frames already reported and `d` the depth. Appended: records for frames `p..d-1` at their depth, then the assertion at level `d`, which becomes the target. Newly reported frames point at their own record; earlier ones keep theirs. The watermark does not drop, every frame ends up reported, and earlier records are unchanged. |
| FailureModel.AddFailureWithoutFrames | src/MiniTest.cpp:17-40 | With no pushed frame, exactly one level-0 record is appended and targeted. Earlier records and the watermark are unchanged. |
| FailureModel.AddFailureNewChain | src/MiniTest.cpp:21-38 | A chain of D unreported frames yields D+1 records: one per frame in chain order, each frame pointing at its own, then the failing expression last at level D. The watermark becomes the last frame's id. |
| FailureModel.AddFailureNewChainLevels | src/MiniTest.cpp:21-38 | The nesting levels of those D+1 records run 0..D in order. |
| FailureModel.WalkReportsNew | src/MiniTest.cpp:21-34 | Over frames that are all above the watermark with increasing ids, the walk appends one record per frame in chain order and marks each frame with its record. |
| FailureModel.WalkSkipsReported | src/MiniTest.cpp:24-26 | Frames at or below the watermark produce no record and change nothing. |
| FailureModel.AddFailureReportsAll | src/MiniTest.cpp:23-32 | After `addFailure` every frame is at or below the watermark and has a record, and the watermark stays below the next id. |
| FailureModel.AddFailureGrows | src/MiniTest.cpp:17-40 | The frames stay the same and only gain a record. The record sequence is append-only. |
| FailureModel.AddFailureFrameRecord | src/MiniTest.cpp:27-31 | After `addFailure`, frame k points at a record with its file, line, expression and nesting level k. |
| FailureModel.AddFailureValid | src/MiniTest.cpp:17-40 | `addFailure` keeps the invariant. |
| FailureModel.SecondFailureAddsOne | src/MiniTest.cpp:24-26 | A second `addFailure` inside the same still-active chain appends exactly one record, at the chain depth, and targets it. The chain and watermark are unchanged. |
| FailureModel.AddFailureLastRecord | src/MiniTest.cpp:36-38 | The last record appended is the failing assertion's, at the chain depth, and it is the message target. |
| TestResults.TestResult.PushPredicateContext | src/MiniTest.h:198-204 | Links a new tail frame carrying the current id and no record, then raises the id by one. The state stays valid. |
| FailureModel.PushEffect | src/MiniTest.h:198-204 | The pushed frame is the new tail. Its id is above every earlier frame's and above the watermark, and it has no record. The state stays valid. |
| TestResults.TestResult.PopPredicateContext | src/MiniTest.cpp:54-68 | The loop to the frame before the tail and the unlink move the state exactly as `FailureModel.Pop` and keep it valid. |
| FailureModel.PopEffect | src/MiniTest.cpp:54-68 | Only the tail frame is removed. Records and counters stay. The target moves to the tail's record when the tail was reported and stays otherwise. With only the root left, nothing changes. |
| FailureModel.PushThenPop | src/MiniTest.h:198-207 | A pop right after a push restores the state except for the id counter, which has moved on. |
| FailureModel.PopRetargetsMessages | src/MiniTest.cpp:59-63 | Text streamed right after popping a reported frame lands on that frame's record, at the tail's depth, whatever failure came last. |
| TestResults.TestResult.AddToLastFailure | src/MiniTest.cpp:115-120 | Moves the state exactly as `FailureModel.AddToLastFailure`: the text is appended to the target's message, and nothing happens without a target. |
| FailureModel.AddToLastFailureEffect | src/MiniTest.cpp:115-120 | Only the target record's message changes; it grows by the text. Every other record, the chain, the counters and the target are unchanged. The state stays valid. |
| FailureModel.AddToLastFailureTwice | src/MiniTest.cpp:115-120 | Two appends in a row equal one append of the concatenated text, so chained `<<` builds the message piece by piece. |
| TestResults.TestResult.AppendBool | src/MiniTest.cpp:130-132 | `<< bool` appends `true` or `false` to the target. |
| TestResults.TestResult.AppendInt64 | src/MiniTest.cpp:122-124 | `<< int64_t` appends the signed decimal text of the value. |
| TestResults.TestResult.AppendUint64 | src/MiniTest.cpp:126-128 | `<< uint64_t` appends the decimal text of the value. |
| Text.IntTextRoundTrip | src/MiniTest.cpp:122-128 | Reading back the decimal text of any integer gives the integer, so distinct values give distinct texts. |
| Text.ParseNatText | src/MiniTest.cpp:126-128 | Reading back the decimal text of a natural gives the natural. |
| Text.Find | src/MiniTest.cpp:104 | Gives the first position at or after the start that holds the character, or none when no later position holds it. |
| Text.FindIsFirst | src/MiniTest.cpp:104 | Any position with the first-occurrence property is what `Find` gives. |
| Text.LineLast | src/MiniTest.cpp:104-107 | The position `find` reports for the next newline, or the last character when there is none (npos). No newline comes before it, and the line it ends is exactly the line `LineEnd` delimits. |
| Text.IndentText | src/MiniTest.cpp:99-113 | The loop's result is `indent` placed before each newline-terminated line, the last line included. Empty text gives empty text. Removing the prefixes gives the text back. |
| Text.DedentIndented | src/MiniTest.cpp:99-113 | Removing one indent from the front of each line of the re-indented text gives back the original text. |
| Text.DedentIndentFrom | src/MiniTest.cpp:103-111 | The same, from any start position of the loop. |
| Report.LevelIndent | src/MiniTest.cpp:83 | A record at nesting level n is indented by 2·n spaces. |
| Report.FailureReport | src/MiniTest.cpp:72-97 | No records give no text. With records and the test name requested, the text starts with the `* Detail of <name> test failure:` header. |
| Report.PrintFailure | src/MiniTest.cpp:72-97 | Returns exactly `FailureReport`: nothing without records, otherwise the optional header and then each record in order. |
| Report.PrintRecords | src/MiniTest.cpp:82-96 | The loop renders every record in the order they were added. |
| Report.PrintRecord | src/MiniTest.cpp:83-95 | One record renders as the location line (when it has a file), its expression (or a bare newline after a location), and its message re-indented two spaces past the record. |
| Report.RenderFailuresAppend | src/MiniTest.cpp:82-96 | The report of two runs of records is the two reports in turn. |
| Report.LocationIndented | src/MiniTest.cpp:83-86 | A record with a file starts with 2·level spaces, then the file name and `(`. |
| Report.MessageRecoverable | src/MiniTest.cpp:92-95 | A non-empty message block ends in a newline. Removing the record's indent plus two spaces from each of its lines gives back the message exactly. |
| Assertions.ExecOp | src/MiniTest.h:190-207 | Every statement keeps the state valid and the same frames. Records only grow, the counters never drop, and once a record is added every frame still in the chain is reported. |
| Assertions.RunOp | src/MiniTest.cpp:141-144 | One statement of a test body moves the result exactly as `ExecOp`, and the result stays valid. |
| Assertions.RunOps | src/MiniTest.cpp:141-144 | Running a test body (`TestCase::run`, reached from src/MiniTest.cpp:173) moves the result exactly as `ExecOps`, statement by statement. |
| Assertions.AssertPredUnfold | src/MiniTest.h:198-207 | Proof step of `AssertPredTargetsOwnRecord`, not a separate property: the macro's effect is the pop of the state that the body leaves after the push, and that state follows the pushed one. |
| Assertions.AssertTrue | src/MiniTest.h:190-193 | `JSONTEST_ASSERT` leaves the result untouched when the condition holds. Otherwise it is `addFailure` followed by the streamed text. |
| Assertions.PassingBodyLeavesResult | src/MiniTest.h:190-207 | A body with no bare `<<` whose assertions all hold (`Passing`), including those inside `JSONTEST_ASSERT_PRED` bodies at any depth, leaves the records, frames, watermark and message target as they were, so a fresh result stays unfailed. Only the predicate id counter moves, and a flat body leaves the result untouched. |
| Assertions.PassingOpLeavesResult | src/MiniTest.h:190-207 | The same for one statement: a holding `JSONTEST_ASSERT_PRED` pushes and pops an unreported frame and only advances the id counter. |
| Assertions.CheckEqual | src/MiniTest.h:165-174 | The piecewise `<<` calls after `addFailure` produce exactly `CheckEqualSpec`. |
| Assertions.CheckEqualAgreeing | src/MiniTest.h:168 | Equal values leave the result completely unchanged. |
| Assertions.CheckEqualMismatch | src/MiniTest.h:169-171 | Differing values add the records `addFailure` adds. The assertion's record, at the chain depth and targeted, has the message `Expected: <expected>\nActual  : <actual>`. |
| Assertions.TopLevelMismatch | src/MiniTest.h:165-174 | Outside any predicate, a failed integer comparison appends exactly one level-0 record with the mismatch message and targets it. |
| Assertions.AssertPredicate | src/MiniTest.h:198-207 | Push, then the body, then pop move the result exactly as `ExecOp` on the predicate statement. |
| Assertions.AssertPredRestoresChain | src/MiniTest.h:198-207 | `JSONTEST_ASSERT_PRED` pops exactly the frame it pushed. The chain afterwards holds the same frames, the id counter has moved past the pushed id, and records only grew. |
| Assertions.AssertPredTargetsOwnRecord | src/MiniTest.h:198-207 | If the predicate's body recorded a failure, the message target afterwards is the record for the predicate expression itself, at the depth where it was called. |
| Assertions.ReportedFrameDescribes | src/MiniTest.cpp:27-31 | A frame reported in a later state points at a record with its file, line, expression and depth. |
| Runners.Runner.constructor | src/MiniTest.cpp:149 | A new runner has no tests. |
| Runners.Runner.Add | src/MiniTest.cpp:151-154 | Appends the test after the others, keeping insertion order. |
| Runners.Runner.TestCount | src/MiniTest.cpp:156 | The number of registered tests. `Runners.Runner.Add` raises it by one and puts the new test last. |
| Runners.Runner.TestNameAt | src/MiniTest.cpp:158-163 | Gives the name of the test at that index. |
| Runners.Runner.RunTestAt | src/MiniTest.cpp:165-184 | Names the result after the test and runs its body on it. On a fresh result this is `RunTest`. The progress text is `Testing <name>: ` then `FAILED` exactly when the result holds a record afterwards (`failed()`), else `OK`. |
| Runners.Runner.RunAllTest | src/MiniTest.cpp:186-214 | Returns true exactly when no test's result failed. The output is `RunAllText` of the results in registration order. |
| Runners.Runner.RunEach | src/MiniTest.cpp:189-195 | The loop keeps exactly the failed results, in order, and writes one progress line per test. |
| Runners.Runner.RunFresh | src/MiniTest.cpp:190-191 | Each test runs on a new result, giving `RunTest` of that test. |
| Runners.Conclude | src/MiniTest.cpp:197-213 | With no failed result, the output is the progress lines then the optional summary. Otherwise the details of every failed result (naming the test when more than one test is registered) come in between. |
| Runners.SummaryLine | src/MiniTest.cpp:197-212 | `All <n> tests passed`, or `<passed>/<n> tests passed (<failed> failure(s))` with passed = n − failed. |
| Runners.PrintFailures | src/MiniTest.cpp:203-205 | Each kept result's details, in order. |
| Runners.Runner.TestIndex | src/MiniTest.cpp:216-225 | Finds a test exactly when some registered name matches. The index is the first match, and the output index is untouched when there is none. |
| Runners.AllPassedIff | src/MiniTest.cpp:186-214 | No failed result is kept exactly when no registered test fails. |
| Runners.NoFailedResults | src/MiniTest.cpp:192-194 | The kept list is empty exactly when every result passed. |
| Runners.OutcomesFail | src/MiniTest.cpp:189-195 | Result i is the run of test i on a fresh result. |
| Runners.RunEachStep | src/MiniTest.cpp:189-195 | Proof step of `RunEach`, not a separate property: running one more test extends the kept list by its result exactly when it failed, and the progress text by its line. |
| Runners.CountsAddUp | src/MiniTest.cpp:207-211 | Passed plus failed equals the number of tests, with passed counted independently. |
| Runners.PassCountSplit | src/MiniTest.cpp:207-211 | One more result raises the passed count by one exactly when it passed. |
| Runners.SummaryCounts | src/MiniTest.cpp:207-211 | With some failure, the summary names the independently counted passed tests, the total and the failed count. |
| Runners.RunAllTextParts | src/MiniTest.cpp:197-213 | Proof step of `RunAllTest`, not a separate property: the output is the progress lines, then details only when some test failed, then the optional summary. |
| Runners.EmptyRunner | src/MiniTest.cpp:197-201 | A runner without tests passes and prints `All 0 tests passed`. |
| Scenarios.ValueTest1Records | src/test/minitest_test.cpp:11-23 | `ValueTest1` leaves two level-0 records in order: `a == 1` at line 21 with `Expected: 2\nActual  : 1`, then `a == 2` at line 13 with `Expected: 3\nActual  : 2`. |
| Scenarios.ValueTest1Fails | src/test/minitest_test.cpp:18-26 | That test fails. |
| Scenarios.TwoTopLevelMismatches | src/MiniTest.h:165-174 | Two failing integer comparisons outside any predicate give two level-0 records in order, with their mismatch messages. |
| Scenarios.SingleFailingTest | src/MiniTest.cpp:186-214 | A runner with one failing test prints its `FAILED` progress line, its details without the test-name header, and `0/1 tests passed (1 failure(s))`. |
| Scenarios.SingleFailedResult | src/MiniTest.cpp:197-212 | The same output, stated for a single failed result. |
| Scenarios.NestedPredicates | src/MiniTest.h:198-207 | A failing `JSONTEST_ASSERT` inside a predicate inside a predicate gives records at levels 0, 1 and 2 in call order. Text streamed after both predicates return lands on the outer predicate's record. |
| Scenarios.NestedPops | src/MiniTest.cpp:54-68 | After both predicates return, the records are unchanged and the target is the outer predicate's record. |
| Scenarios.InnerRecords | src/MiniTest.cpp:17-40 | The inner failure yields one record per frame and one for the assertion, and each frame points at its own. |
| Scenarios.EmptyTrailer | src/MiniTest.h:190-193 | `JSONTEST_ASSERT` with nothing streamed after it is `addFailure` alone. |

## Left out

- Exceptions are not modelled: the `JSON_USE_EXCEPTION` try/catch of `runTestAt` (src/MiniTest.cpp:170-179) and `JSONTEST_ASSERT_THROWS` (src/MiniTest.h:221-232). Dafny has no exceptions, and a test body here cannot throw.
- The generic `operator<<` template (src/MiniTest.h:75-79) formats through `std::stringstream` with `setprecision` and `hexfloat`. It is left out. `checkEqual` takes the value-to-text function as a parameter, and integer bodies use decimal text.
- `MINITEST_ASSERT_EQUAL` is modelled on `int` operands of the same type. The `static_cast<U>` conversion between differing C++ types is not modelled.
- `printf` and `fflush` are not modelled as console output. The text that `printFailure`, `runTestAt` and `runAllTest` print is returned as a string instead. `Runners.Runner.RunTestAt` returns its progress line in one piece, whereas the C++ prints it in two parts around the test run.
- Test-case factories, heap allocation of test cases, virtual dispatch (`TestCase::run`, `testName`, `runTestCase`) and the registration macros (`JSONTEST_FIXTURE`, `MINITEST_FIXTURE_V2`, `JSONTEST_REGISTER_FIXTURE`) are not modelled. A registered test is its name plus the statements its body sends to the result.
- `Runners.Runner.TestNameAt` reads the stored name and does not instantiate the test and destroy it again.
- The results that `runAllTest` copies into its `std::deque<TestResult>` are kept as value snapshots. Their copied internal pointers are never used and are not modelled.
- `ToJsonString`, `checkStringEqual`, `MINITEST_ASSERT_STRING_EQUAL`, `runCommandLine`, `listTests`, `printUsage` and `preventDialogOnCrash` are not modelled. Their bodies are not part of this model, or they are command-line glue.
- The predicate ids and the watermark are `unsigned int` in the C++ but unbounded naturals here. 32-bit wrap-around after 2^32 predicate entries is not modelled. Counts that are `size_t` in the C++ are likewise naturals.
- The predicate chain is an intrusive linked list of stack-allocated frames in the C++, with a tail pointer. Here it is a sequence whose last element is the tail. Aliasing between a frame and the caller's stack variable is not modelled.
- Text is a sequence of characters. Strings that hold NUL bytes or multi-byte encodings get no special treatment.
