/**
 The lines of an event stream and the data events that they frame, as the answer-stream parser
 (experiments/answer-quality/run.py) takes them and as section 9.2.6 of the HTML Living Standard does.
 */
module EventLines {
  import opened Options
  import opened Splitting

  // ── Lines ─────────────────────────────────────────────────────────────────

  /** Who cuts the text into lines: Python's str.splitlines, or the standard. */
  datatype Reader = Python | Standard

  /** Line ends that only Python knows. */
  predicate IsPythonBreak(c: char) {
    c == '\U{B}' || c == '\U{C}' || '\U{1C}' <= c <= '\U{1E}' || c == '\U{85}' || c == '\U{2028}' || c == '\U{2029}'
  }

  predicate Ends(r: Reader, c: char) {
    c == '\n' || c == '\r' || (r.Python? && IsPythonBreak(c))
  }

  predicate OnOneLine(r: Reader, s: string) {
    forall i :: 0 <= i < |s| ==> !Ends(r, s[i])
  }

  /** Length of the first line. */
  function LineLength(r: Reader, s: string): (n: nat)
    ensures n <= |s| && OnOneLine(r, s[..n])
    ensures n < |s| ==> Ends(r, s[n])
  {
    if s == "" || Ends(r, s[0]) then 0
    else
      var n := LineLength(r, s[1..]);
      assert s[..n + 1] == [s[0]] + s[1..][..n];
      n + 1
  }

  /** What follows a line end; a carriage return and line feed are one end. */
  function AfterBreak(s: string): (rest: string)
    ensures |rest| <= |s| && (s != "" ==> |rest| < |s|)
  {
    if s == "" then ""
    else if |s| >= 2 && s[0] == '\r' && s[1] == '\n' then s[2..]
    else s[1..]
  }

  function SplitLines(r: Reader, s: string): seq<string>
    decreases |s|
  {
    if s == "" then []
    else
      var n := LineLength(r, s);
      [s[..n]] + (if n == |s| then [] else SplitLines(r, AfterBreak(s[n..])))
  }

  lemma {:induction false} FirstLine(r: Reader, line: string, rest: string)
    requires OnOneLine(r, line) && (rest != "" ==> Ends(r, rest[0]))
    ensures LineLength(r, line + rest) == |line|
  {
    if line != "" {
      assert (line + rest)[1..] == line[1..] + rest;
      FirstLine(r, line[1..], rest);
    } else {
      assert line + rest == rest;
    }
  }

  lemma SplitFirstLine(r: Reader, line: string, rest: string)
    requires OnOneLine(r, line) && (rest != "" ==> Ends(r, rest[0]))
    ensures rest != "" ==> SplitLines(r, line + rest) == [line] + SplitLines(r, AfterBreak(rest))
    ensures rest == "" && line != "" ==> SplitLines(r, line + rest) == [line]
    ensures SplitLines(r, "") == []
  {
    var s := line + rest;
    FirstLine(r, line, rest);
    hide LineLength, OnOneLine, AfterBreak;
    assert s[..|line|] == line && s[|line|..] == rest;
  }

  lemma BrokenUnfolds(lines: seq<string>, tail: string)
    ensures lines == [] ==> Broken(lines, '\n') + tail == tail
    ensures lines != [] ==> Broken(lines, '\n') + tail == lines[0] + ("\n" + (Broken(lines[1..], '\n') + tail))
  {
  }

  lemma NewlineEnds(r: Reader, rest: string)
    ensures "\n" + rest != "" && Ends(r, ("\n" + rest)[0]) && AfterBreak("\n" + rest) == rest
  {
  }

  /** Ended lines read back, whatever follows them. */
  lemma {:induction false} SplitLinesOfBroken(r: Reader, lines: seq<string>, tail: string)
    requires forall i :: 0 <= i < |lines| ==> OnOneLine(r, lines[i])
    ensures SplitLines(r, Broken(lines, '\n') + tail) == lines + SplitLines(r, tail)
    decreases |lines|
  {
    hide *;
    BrokenUnfolds(lines, tail);
    if lines == [] {
      assert lines + SplitLines(r, tail) == SplitLines(r, tail);
    } else {
      var rest := Broken(lines[1..], '\n') + tail;
      NewlineEnds(r, rest);
      SplitFirstLine(r, lines[0], "\n" + rest);
      SplitLinesOfBroken(r, lines[1..], tail);
      assert [lines[0]] + (lines[1..] + SplitLines(r, tail)) == lines + SplitLines(r, tail);
    }
  }

  lemma {:induction false} LinesAreOnOneLine(r: Reader, s: string)
    ensures forall line :: line in SplitLines(r, s) ==> OnOneLine(r, line)
    decreases |s|
  {
    if s != "" {
      var n := LineLength(r, s);
      if n < |s| {
        LinesAreOnOneLine(r, AfterBreak(s[n..]));
      }
    }
    hide OnOneLine, LineLength;
  }

  /** The end of a line and an empty line. */
  const BLANK := "\n\n"

  // ── Data events as the parser frames them ─────────────────────────────────

  const DATA := "data:"

  /** The value of a data line: what follows the colon, less one leading space. */
  function DataValue(line: string): string
    requires DATA <= line
  {
    var value := line[5..];
    if value != "" && value[0] == ' ' then value[1..] else value
  }

  function DataLine(value: string): string { "data: " + value }

  lemma DataLineFacts(value: string)
    ensures var line := DataLine(value);
      line != "" && line[0] == 'd' && line != "data" && DATA <= line && DataValue(line) == value
  {
    var line := DataLine(value);
    assert line[..5] == DATA && line[5..] == " " + value && (" " + value)[1..] == value;
  }

  lemma DataLineIsOneLine(r: Reader, value: string)
    ensures OnOneLine(r, DataLine(value)) <==> OnOneLine(r, value)
  {
    assert forall i :: 0 <= i < |value| ==> value[i] == DataLine(value)[i + 6];
  }

  /** The pending data fields after one more line, and the event it dispatches, if any. */
  function FrameLine(fields: seq<string>, line: string): (seq<string>, Option<string>) {
    if line != "" then (if DATA <= line then fields + [DataValue(line)] else fields, None)
    else if fields == [] then (fields, None)
    else ([], Some(Join(fields, "\n")))
  }

  /** All events that some lines dispatch. */
  function Events(fields: seq<string>, lines: seq<string>): seq<string>
    decreases |lines|
  {
    if lines == [] then []
    else
      var (fields', event) := FrameLine(fields, lines[0]);
      (if event.Some? then [event.value] else []) + Events(fields', lines[1..])
  }

  /** The data fields left undispatched at the end. */
  function Leftover(fields: seq<string>, lines: seq<string>): seq<string>
    decreases |lines|
  {
    if lines == [] then fields else Leftover(FrameLine(fields, lines[0]).0, lines[1..])
  }

  lemma {:induction false} JoinSnoc(fields: seq<string>, value: string)
    requires fields != []
    ensures Join(fields + [value], "\n") == Join(fields, "\n") + "\n" + value
    decreases |fields|
  {
    assert (fields + [value])[1..] == fields[1..] + [value];
    if |fields| > 1 {
      JoinSnoc(fields[1..], value);
    }
  }
}
