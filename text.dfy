/**
 * Pure text helpers of the result object: the textual forms used by the
 * chained `operator<<` overloads for bool and 64-bit integers, and the
 * line-by-line re-indentation of `indentText`.
 */
module Text {
  import opened Wrappers

  type Int64 = x: int | -0x8000_0000_0000_0000 <= x < 0x8000_0000_0000_0000
  type Uint64 = x: int | 0 <= x < 0x1_0000_0000_0000_0000

  /** The text `operator<<(bool)` appends. */
  function BoolText(b: bool): string {
    if b then "true" else "false"
  }

  // ---------------------------------------------------------------------------
  // Decimal text of integers (std::to_string)

  predicate IsDigit(c: char) {
    '0' <= c <= '9'
  }

  function DigitChar(d: nat): (c: char)
    requires d < 10
    ensures IsDigit(c) && c as int - '0' as int == d
  {
    ('0' as int + d) as char
  }

  /** Decimal digits of `n`, most significant first, without leading zeros. */
  function NatText(n: nat): (r: string)
    ensures r != []
    ensures forall i :: 0 <= i < |r| ==> IsDigit(r[i])
    ensures r[0] == '0' ==> r == "0"
    decreases n
  {
    if n < 10 then [DigitChar(n)] else NatText(n / 10) + [DigitChar(n % 10)]
  }

  /** Decimal text of a signed value: a minus sign for negatives. */
  function IntText(v: int): (r: string)
    ensures r != [] && (r[0] == '-' <==> v < 0)
  {
    if v < 0 then "-" + NatText(-v) else NatText(v)
  }

  function DigitValue(c: char): (d: nat)
    requires IsDigit(c)
    ensures d < 10 && DigitChar(d) == c
  {
    c as int - '0' as int
  }

  /** Reference reader for decimal text, the inverse of `NatText`. */
  function ParseNat(s: string): nat
    requires forall i :: 0 <= i < |s| ==> IsDigit(s[i])
  {
    if s == [] then 0 else ParseNat(s[..|s| - 1]) * 10 + DigitValue(s[|s| - 1])
  }

  function ParseInt(s: string): (v: int)
    requires s != [] && s[0] == '-' ==> forall i :: 1 <= i < |s| ==> IsDigit(s[i])
    requires s == [] || s[0] != '-' ==> forall i :: 0 <= i < |s| ==> IsDigit(s[i])
  {
    if s != [] && s[0] == '-' then 0 - ParseNat(s[1..]) else ParseNat(s)
  }

  lemma {:induction false} ParseNatText(n: nat)
    ensures ParseNat(NatText(n)) == n
    decreases n
  {
    if n >= 10 {
      var r := NatText(n);
      assert r[..|r| - 1] == NatText(n / 10);
      ParseNatText(n / 10);
    }
  }

  /** Reading back the text of any value gives that value, so distinct values have distinct texts. */
  lemma IntTextRoundTrip(v: int)
    ensures ParseInt(IntText(v)) == v
  {
    if v < 0 {
      ParseNatText(-v);
      assert IntText(v)[1..] == NatText(-v);
    } else {
      ParseNatText(v);
    }
  }

  // ---------------------------------------------------------------------------
  // Line re-indentation (TestResult::indentText)

  /** `std::string::find(c, from)`: the first position at or after `from` holding `c`, or npos. */
  function Find(text: string, c: char, from: nat): (r: Option<nat>)
    ensures r.Some? ==> from <= r.value < |text| && text[r.value] == c
    ensures r.Some? ==> forall j :: from <= j < r.value ==> text[j] != c
    ensures r.None? ==> forall j :: from <= j < |text| ==> text[j] != c
    decreases |text| - from
  {
    if from >= |text| then None
    else if text[from] == c then Some(from)
    else Find(text, c, from + 1)
  }

  /** Any position satisfying the first-occurrence property is what `Find` returns. */
  lemma FindIsFirst(text: string, c: char, from: nat, p: Option<nat>)
    requires p.Some? ==> from <= p.value < |text| && text[p.value] == c
    requires p.Some? ==> forall j :: from <= j < p.value ==> text[j] != c
    requires p.None? ==> forall j :: from <= j < |text| ==> text[j] != c
    ensures Find(text, c, from) == p
  {
  }

  /** The end (exclusive) of the line starting at `from`: just past its newline, or the end of the text. */
  function LineEnd(text: string, from: nat): (e: nat)
    requires from < |text|
    ensures from < e <= |text|
  {
    match Find(text, '\n', from)
    case Some(n) => n + 1
    case None => |text|
  }

  /** The text of `indentText`: `indent` put in front of each line of `text[from..]`. */
  function IndentFrom(text: string, from: nat, indent: string): string
    requires from <= |text|
    decreases |text| - from
  {
    if from == |text| then ""
    else indent + text[from..LineEnd(text, from)] + IndentFrom(text, LineEnd(text, from), indent)
  }

  function Indented(text: string, indent: string): string {
    IndentFrom(text, 0, indent)
  }

  /**
   * Reference inverse of `Indented`: removes one `indent` in front of each
   * line, or fails when a line does not start with it.
   */
  function Dedent(s: string, indent: string): Option<string>
    decreases |s|
  {
    if s == [] then Some([])
    else if |s| <= |indent| || s[..|indent|] != indent then None
    else
      var rest := s[|indent|..];
      var e := LineEnd(rest, 0);
      match Dedent(rest[e..], indent)
      case Some(t) => Some(rest[..e] + t)
      case None => None
  }

  /** A whole line of `text` followed by anything still ends where that line ends. */
  lemma LineEndOfLine(text: string, from: nat, tail: string)
    requires from < |text|
    requires LineEnd(text, from) < |text| || tail == ""
    ensures LineEnd(text[from..LineEnd(text, from)] + tail, 0) == LineEnd(text, from) - from
  {
    var e := LineEnd(text, from);
    var rest := text[from..e] + tail;
    if Find(text, '\n', from).Some? {
      FindIsFirst(rest, '\n', 0, Some(e - 1 - from));
    } else {
      FindIsFirst(rest, '\n', 0, None);
    }
  }

  /** Deleting the inserted prefixes gives back the original text. */
  lemma {:induction false} DedentIndentFrom(text: string, from: nat, indent: string)
    requires from <= |text|
    ensures Dedent(IndentFrom(text, from, indent), indent) == Some(text[from..])
    decreases |text| - from
  {
    if from < |text| {
      var e := LineEnd(text, from);
      var tail := IndentFrom(text, e, indent);
      assert IndentFrom(text, from, indent) == indent + text[from..e] + tail;
      assert e == |text| ==> tail == "";
      LineEndOfLine(text, from, tail);
      DedentLine(indent, text[from..e], tail);
      DedentIndentFrom(text, e, indent);
      SplitSuffix(text, from, e);
    } else {
      assert IndentFrom(text, from, indent) == [] && text[from..] == [];
    }
  }

  lemma SplitSuffix(text: string, from: nat, e: nat)
    requires from <= e <= |text|
    ensures text[from..] == text[from..e] + text[e..]
  {
  }

  /** `Dedent` removes the indent of one line and goes on with the rest. */
  lemma DedentLine(indent: string, line: string, tail: string)
    requires line != [] && LineEnd(line + tail, 0) == |line|
    ensures Dedent(indent + line + tail, indent) ==
      match Dedent(tail, indent)
      case Some(t) => Some(line + t)
      case None => None
  {
    var s := indent + line + tail;
    assert s[..|indent|] == indent;
    assert s[|indent|..] == line + tail;
    assert (line + tail)[..|line|] == line;
    assert (line + tail)[|line|..] == tail;
  }

  lemma DedentIndented(text: string, indent: string)
    ensures Dedent(Indented(text, indent), indent) == Some(text)
  {
    DedentIndentFrom(text, 0, indent);
  }

  /**
   * `TestResult::indentText`: walks the text line by line with `find`,
   * appending `indent` and the line (with its newline) to the result.
   */
  method IndentText(text: string, indent: string) returns (reindented: string)
    ensures reindented == Indented(text, indent)
    ensures text == [] ==> reindented == []
    ensures Dedent(reindented, indent) == Some(text)
  {
    reindented := "";
    var lastIndex: nat := 0;
    while lastIndex < |text|
      invariant lastIndex <= |text|
      invariant reindented + IndentFrom(text, lastIndex, indent) == Indented(text, indent)
      decreases |text| - lastIndex
    {
      var nextIndex := LineLast(text, lastIndex);
      IndentStep(text, lastIndex, indent, reindented);
      reindented := reindented + indent;
      reindented := reindented + text[lastIndex..nextIndex + 1];
      lastIndex := nextIndex + 1;
    }
    DedentIndented(text, indent);
  }

  /**
   * The position of the last character of the line starting at `from`: the
   * newline `find` reports, or the last character when `find` gives npos.
   */
  method LineLast(text: string, from: nat) returns (last: nat)
    requires from < |text|
    ensures from <= last < |text| && last + 1 == LineEnd(text, from)
    ensures text[last] == '\n' || last == |text| - 1
    ensures forall j :: from <= j < last ==> text[j] != '\n'
  {
    match Find(text, '\n', from) {
      case Some(n) => last := n;
      case None => last := |text| - 1;
    }
  }

  /** One iteration of the `indentText` loop: the indent and the line, then the rest. */
  lemma IndentStep(text: string, from: nat, indent: string, done: string)
    requires from < |text|
    ensures var e := LineEnd(text, from);
      done + IndentFrom(text, from, indent) == done + indent + text[from..e] + IndentFrom(text, e, indent)
  {
  }

  /** `std::string(n, ' ')`. */
  function Spaces(n: nat): (r: string)
    ensures |r| == n && forall i :: 0 <= i < n ==> r[i] == ' '
  {
    if n == 0 then "" else Spaces(n - 1) + " "
  }
}
