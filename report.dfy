/**
 * The text `TestResult::printFailure` writes: an optional header naming the
 * test, then every record in the order it was added, each indented by two
 * spaces per nesting level, its message re-indented two spaces further.
 * What goes to standard output is returned as a string here.
 */
module Report {
  import opened Wrappers
  import opened Text
  import opened FailureModel

  /** The indentation of a record at nesting level `level`. */
  function LevelIndent(level: nat): (r: string)
    ensures |r| == 2 * level && forall i :: 0 <= i < |r| ==> r[i] == ' '
  {
    Spaces(2 * level)
  }

  /** `file(line): ` when the record has a file, after its indentation. */
  function Location(f: Failure): string {
    match f.file
    case Some(file) => LevelIndent(f.nestingLevel) + file + "(" + NatText(f.line) + "): "
    case None => ""
  }

  /** The expression and its newline; a bare newline ends a location without expression. */
  function ExprLine(f: Failure): string {
    if f.expr != "" then f.expr + "\n"
    else if f.file.Some? then "\n"
    else ""
  }

  /** The message, every line indented two spaces beyond the record, then a newline. */
  function MessageBlock(f: Failure): string {
    if f.message != "" then Indented(f.message, LevelIndent(f.nestingLevel) + "  ") + "\n"
    else ""
  }

  /** What one iteration of the `printFailure` loop writes. */
  function RenderFailure(f: Failure): string {
    Location(f) + ExprLine(f) + MessageBlock(f)
  }

  /** The records rendered one after the other, first added first. */
  function RenderFailures(fs: seq<Failure>): string {
    if fs == [] then "" else RenderFailure(fs[0]) + RenderFailures(fs[1..])
  }

  function Header(name: string): string {
    "* Detail of " + name + " test failure:\n"
  }

  /** The whole text of `printFailure(printTestName)`. */
  function FailureReport(s: ResultState, printTestName: bool): (r: string)
    ensures s.failures == [] ==> r == ""
    ensures s.failures != [] && printTestName ==> Header(s.name) <= r
  {
    if s.failures == [] then ""
    else (if printTestName then Header(s.name) else "") + RenderFailures(s.failures)
  }

  /**
   * `printFailure`: nothing without records; otherwise the header if asked
   * for, then each record in order. What the text promises is proved about
   * `FailureReport` and `RenderFailures` below (`RenderFailuresAppend`,
   * `LocationIndented`, `MessageRecoverable`).
   */
  method PrintFailure(s: ResultState, printTestName: bool) returns (out: string)
    ensures out == FailureReport(s, printTestName)
  {
    out := "";
    if s.failures == [] {
      return;
    }
    if printTestName {
      out := Header(s.name);
    }
    var records := PrintRecords(s.failures);
    out := out + records;
  }

  /** The loop of `printFailure`: every record, in the order they were added. */
  method PrintRecords(failures: seq<Failure>) returns (out: string)
    ensures out == RenderFailures(failures)
  {
    out := "";
    var i := 0;
    assert failures[..i] == [];
    while i < |failures|
      invariant i <= |failures|
      invariant out == RenderFailures(failures[..i])
    {
      var text := PrintRecord(failures[i]);
      out := out + text;
      RenderPrefixStep(failures, i);
      i := i + 1;
    }
    assert failures[..i] == failures;
  }

  /**
   * The body of the `printFailure` loop for one record; its layout is stated
   * by `LocationIndented` and `MessageRecoverable` about `RenderFailure`.
   */
  method PrintRecord(failure: Failure) returns (out: string)
    ensures out == RenderFailure(failure)
  {
    out := "";
    var indent := Spaces(2 * failure.nestingLevel);
    if failure.file.Some? {
      out := out + indent + failure.file.value + "(" + NatText(failure.line) + "): ";
    }
    assert out == Location(failure);
    if failure.expr != "" {
      out := out + failure.expr + "\n";
    } else if failure.file.Some? {
      out := out + "\n";
    }
    assert out == Location(failure) + ExprLine(failure);
    if failure.message != "" {
      var reindented := IndentText(failure.message, indent + "  ");
      out := out + reindented + "\n";
    }
  }

  // ---------------------------------------------------------------------------
  // Properties of the layout

  /** The report of two runs of records is the two reports one after the other. */
  lemma {:induction false} RenderFailuresAppend(a: seq<Failure>, b: seq<Failure>)
    ensures RenderFailures(a + b) == RenderFailures(a) + RenderFailures(b)
    decreases |a|
  {
    if a == [] {
      assert a + b == b;
    } else {
      assert (a + b)[1..] == a[1..] + b;
      RenderFailuresAppend(a[1..], b);
    }
  }

  /** Rendering one more record of a prefix appends that record's text. */
  lemma RenderPrefixStep(fs: seq<Failure>, i: nat)
    requires i < |fs|
    ensures RenderFailures(fs[..i + 1]) == RenderFailures(fs[..i]) + RenderFailure(fs[i])
  {
    assert fs[..i + 1] == fs[..i] + [fs[i]];
    RenderFailuresAppend(fs[..i], [fs[i]]);
  }

  /** A record with a file starts at its level's indentation, with the file name and line. */
  lemma LocationIndented(f: Failure)
    requires f.file.Some?
    ensures var r, prefix := RenderFailure(f), LevelIndent(f.nestingLevel) + f.file.value + "(";
      && |prefix| <= |r| && r[..|prefix|] == prefix
      && forall i :: 0 <= i < 2 * f.nestingLevel ==> r[i] == ' '
  {
    var prefix := LevelIndent(f.nestingLevel) + f.file.value + "(";
    assert RenderFailure(f) == prefix + (NatText(f.line) + "): " + ExprLine(f) + MessageBlock(f));
  }

  /**
   * The message can be read back from the report: every line of the block
   * starts with the record's indentation plus two spaces, and removing those
   * gives the message as it was recorded.
   */
  lemma MessageRecoverable(f: Failure)
    requires f.message != ""
    ensures var block := MessageBlock(f);
      && block != [] && block[|block| - 1] == '\n'
      && Dedent(block[..|block| - 1], LevelIndent(f.nestingLevel) + "  ") == Some(f.message)
  {
    var indent := LevelIndent(f.nestingLevel) + "  ";
    var body := Indented(f.message, indent);
    assert MessageBlock(f) == body + "\n";
    assert (body + "\n")[..|body|] == body;
    DedentIndented(f.message, indent);
  }
}
