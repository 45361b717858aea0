/**
 The data events that the answer-stream parser (experiments/answer-quality/run.py) sees in a text,
 against those that section 9.2.6 of the HTML Living Standard sees in the same text.
 */
module EventFraming {
  import opened EventLines
  import opened Splitting

  // ── The standard ──────────────────────────────────────────────────────────

  const MARK := '\U{FEFF}'

  /** Index of the first colon, or the length of the line. */
  function Colon(line: string): (n: nat)
    ensures n <= |line|
    ensures n < |line| ==> line[n] == ':'
    ensures forall i :: 0 <= i < n ==> line[i] != ':'
  {
    if line == "" || line[0] == ':' then 0 else 1 + Colon(line[1..])
  }

  /** The standard's field name and value of a non-empty line; a leading colon makes a comment. */
  function FieldOf(line: string): (string, string) {
    var n := Colon(line);
    if n == |line| then (line, "")
    else
      var value := line[n + 1..];
      (line[..n], if value != "" && value[0] == ' ' then value[1..] else value)
  }

  /** The standard's data buffer: every data field appends its value and a line feed. */
  function StandardEvents(buffer: string, lines: seq<string>): seq<string>
    decreases |lines|
  {
    if lines == [] then []
    else if lines[0] == "" then
      // An empty buffer dispatches nothing; otherwise its final line feed is removed.
      (if buffer == "" then [] else [buffer[..|buffer| - 1]]) + StandardEvents("", lines[1..])
    else
      var (name, value) := FieldOf(lines[0]);
      StandardEvents(if name == "data" then buffer + value + "\n" else buffer, lines[1..])
  }

  predicate IsMarked(raw: string) {
    raw != "" && raw[0] == MARK
  }

  /** The standard's lines: one leading byte order mark is ignored. */
  function StandardLines(raw: string): seq<string> {
    SplitLines(Standard, if IsMarked(raw) then raw[1..] else raw)
  }

  /** The events that the standard sees in a text. */
  function StandardReading(raw: string): seq<string> {
    StandardEvents("", StandardLines(raw))
  }

  /** The events that the parser sees in it. */
  function ParserReading(raw: string): seq<string> {
    Events([], SplitLines(Python, raw))
  }

  // ── What the parser misses of the standard's lines ────────────────────────

  predicate IsDispatched(lines: seq<string>, i: nat)
    requires i < |lines|
  {
    "" in lines[i + 1..]
  }

  /** A line that adds to a dispatched event by the standard but not in the parser: a bare "data", or a first data line behind the mark. */
  predicate IsLost(marked: bool, lines: seq<string>, i: nat)
    requires i < |lines|
  {
    IsDispatched(lines, i) && (lines[i] == "data" || (i == 0 && marked && DATA <= lines[0]))
  }

  ghost predicate NothingLost(marked: bool, lines: seq<string>) {
    forall i :: 0 <= i < |lines| ==> !IsLost(marked, lines, i)
  }

  lemma DataLineField(line: string)
    requires line != "data"
    ensures DATA <= line <==> FieldOf(line).0 == "data"
    ensures DATA <= line ==> DataValue(line) == FieldOf(line).1
  {
    var n := Colon(line);
    if DATA <= line {
      assert line[..5] == DATA && line[4] == ':';
      assert line[0] == 'd' && line[1] == 'a' && line[2] == 't' && line[3] == 'a';
      assert n == 4;
      assert line[..4] == DATA[..4];
    }
  }

  lemma BareDataField()
    ensures FieldOf("data") == ("data", "") && !(DATA <= "data")
  {
    var n := Colon("data");
    assert n == 4;
  }

  // ── Weights: each reading's length, counting a line feed for every field ──

  function FieldWeight(fields: seq<string>): nat {
    if fields == [] then 0 else FieldWeight(fields[..|fields| - 1]) + |fields[|fields| - 1]| + 1
  }

  function Weight(events: seq<string>): nat {
    if events == [] then 0 else |events[0]| + 1 + Weight(events[1..])
  }

  function If(b: bool, n: int): int { if b then n else 0 }

  /** How many bare data lines the standard dispatches. */
  function BareLines(lines: seq<string>): nat {
    if lines == [] then 0
    else (if lines[0] == "data" && "" in lines[1..] then 1 else 0) + BareLines(lines[1..])
  }

  lemma {:induction false} JoinedWeight(fields: seq<string>)
    requires fields != []
    ensures |Join(fields, "\n")| + 1 == FieldWeight(fields)
  {
    var last := |fields| - 1;
    if last > 0 {
      JoinedWeight(fields[..last]);
      JoinSnoc(fields[..last], fields[last]);
      assert fields[..last] + [fields[last]] == fields;
    } else {
      assert fields[..0] == [];
    }
  }

  lemma OneEventMore(event: string, events: seq<string>)
    ensures Weight([event] + events) == |event| + 1 + Weight(events)
  {
    assert ([event] + events)[1..] == events;
  }

  lemma OneFieldMore(fields: seq<string>, value: string)
    ensures FieldWeight(fields + [value]) == FieldWeight(fields) + |value| + 1
  {
    assert (fields + [value])[..|fields|] == fields;
  }

  lemma BlankLineDispatches(fields: seq<string>, buffer: string, rest: seq<string>)
    ensures Events(fields, [""] + rest) == (if fields == [] then [] else [Join(fields, "\n")]) + Events([], rest)
    ensures StandardEvents(buffer, [""] + rest) == (if buffer == "" then [] else [buffer[..|buffer| - 1]]) + StandardEvents("", rest)
  {
    assert ([""] + rest)[1..] == rest;
    hide Join;
  }

  /** What a blank line adds to the two readings. */
  lemma BlankLine(fields: seq<string>, buffer: string, rest: seq<string>)
    ensures Weight(Events(fields, [""] + rest)) == FieldWeight(fields) + Weight(Events([], rest))
    ensures Weight(StandardEvents(buffer, [""] + rest)) == |buffer| + Weight(StandardEvents("", rest))
  {
    BlankLineDispatches(fields, buffer, rest);
    hide Events, StandardEvents, Weight, Join;
    assert [] + Events([], rest) == Events([], rest) && [] + StandardEvents("", rest) == StandardEvents("", rest);
    if fields != [] {
      JoinedWeight(fields);
      OneEventMore(Join(fields, "\n"), Events([], rest));
    }
    if buffer != "" {
      OneEventMore(buffer[..|buffer| - 1], StandardEvents("", rest));
    }
  }

  /** What any other line adds. */
  lemma OtherLine(fields: seq<string>, buffer: string, line: string, rest: seq<string>)
    requires line != ""
    ensures line == "data" ==>
      Events(fields, [line] + rest) == Events(fields, rest) && StandardEvents(buffer, [line] + rest) == StandardEvents(buffer + "\n", rest)
    ensures line != "data" && DATA <= line ==>
      && Events(fields, [line] + rest) == Events(fields + [DataValue(line)], rest)
      && StandardEvents(buffer, [line] + rest) == StandardEvents(buffer + DataValue(line) + "\n", rest)
    ensures line != "data" && !(DATA <= line) ==>
      Events(fields, [line] + rest) == Events(fields, rest) && StandardEvents(buffer, [line] + rest) == StandardEvents(buffer, rest)
  {
    var lines := [line] + rest;
    assert lines[1..] == rest;
    BareDataField();
    if line != "data" {
      DataLineField(line);
    } else {
      assert buffer + "" + "\n" == buffer + "\n";
    }
    hide FieldOf, DataValue;
  }

  /** The readings differ in weight by what was pending and by one for every bare data line dispatched. */
  lemma {:induction false} WeightsDiffer(fields: seq<string>, buffer: string, lines: seq<string>)
    ensures Weight(StandardEvents(buffer, lines)) + If("" in lines, FieldWeight(fields)) ==
            Weight(Events(fields, lines)) + If("" in lines, |buffer|) + BareLines(lines)
    decreases |lines|
  {
    if lines != [] {
      var line, rest := lines[0], lines[1..];
      assert lines == [line] + rest;
      hide Events, StandardEvents, DataValue, Weight;
      if line == "" {
        BlankLine(fields, buffer, rest);
        WeightsDiffer([], "", rest);
      } else {
        OtherLine(fields, buffer, line, rest);
        if line == "data" {
          WeightsDiffer(fields, buffer + "\n", rest);
        } else if DATA <= line {
          var value := DataValue(line);
          OneFieldMore(fields, value);
          WeightsDiffer(fields + [value], buffer + value + "\n", rest);
        } else {
          WeightsDiffer(fields, buffer, rest);
        }
      }
    }
  }

  // ── Equal readings of the same lines ──────────────────────────────────────

  /** The buffer of the standard is the parser's pending fields, each with its line feed. */
  ghost predicate SameBuffer(fields: seq<string>, buffer: string) {
    buffer == if fields == [] then "" else Join(fields, "\n") + "\n"
  }

  lemma {:induction false} NothingDispatched(fields: seq<string>, buffer: string, lines: seq<string>)
    requires "" !in lines
    ensures Events(fields, lines) == [] && StandardEvents(buffer, lines) == []
    decreases |lines|
  {
    if lines != [] {
      NothingDispatched(FrameLine(fields, lines[0]).0, buffer, lines[1..]);
      NothingDispatched(fields, buffer + FieldOf(lines[0]).1 + "\n", lines[1..]);
    }
  }

  lemma OneValueMore(fields: seq<string>, buffer: string, value: string)
    requires SameBuffer(fields, buffer)
    ensures SameBuffer(fields + [value], buffer + value + "\n")
  {
    if fields != [] {
      JoinSnoc(fields, value);
      assert buffer + value + "\n" == Join(fields, "\n") + "\n" + value + "\n";
    } else {
      assert Join([value], "\n") == value;
    }
  }

  lemma {:induction false} SameEvents(fields: seq<string>, buffer: string, lines: seq<string>)
    requires SameBuffer(fields, buffer) && BareLines(lines) == 0
    ensures Events(fields, lines) == StandardEvents(buffer, lines)
    decreases |lines|
  {
    if "" !in lines {
      NothingDispatched(fields, buffer, lines);
    } else {
      var line, rest := lines[0], lines[1..];
      assert lines == [line] + rest;
      if line == "" {
        SameEvents([], "", rest);
        assert fields != [] ==> buffer[..|buffer| - 1] == Join(fields, "\n");
      } else {
        hide Events, StandardEvents, DataValue, SameBuffer;
        OtherLine(fields, buffer, line, rest);
        if DATA <= line {
          OneValueMore(fields, buffer, DataValue(line));
          SameEvents(fields + [DataValue(line)], buffer + DataValue(line) + "\n", rest);
        } else {
          SameEvents(fields, buffer, rest);
        }
      }
    }
  }

  lemma {:induction false} BareLinesAreLost(lines: seq<string>)
    ensures BareLines(lines) == 0 <==> NothingLost(false, lines)
  {
    if lines != [] {
      var rest := lines[1..];
      BareLinesAreLost(rest);
      forall i | 0 <= i < |rest| ensures IsLost(false, rest, i) <==> IsLost(false, lines, i + 1) {
        assert rest[i + 1..] == lines[i + 2..];
      }
      assert lines[0 + 1..] == rest;
      hide IsLost;
      if NothingLost(false, rest) && !IsLost(false, lines, 0) {
        forall i | 0 <= i < |lines| ensures !IsLost(false, lines, i) {
          if i > 0 {
            assert !IsLost(false, rest, i - 1);
          }
        }
      }
    }
  }

  /** From one position the two readings go on equally exactly if no bare data line is dispatched. */
  lemma EqualExactly(fields: seq<string>, buffer: string, lines: seq<string>)
    requires SameBuffer(fields, buffer)
    ensures Events(fields, lines) == StandardEvents(buffer, lines) <==> NothingLost(false, lines)
  {
    WeightsDiffer(fields, buffer, lines);
    BareLinesAreLost(lines);
    if fields != [] {
      JoinedWeight(fields);
    }
    hide Events, StandardEvents, NothingLost;
    if BareLines(lines) == 0 {
      SameEvents(fields, buffer, lines);
    }
  }

  // ── Cutting the text into lines ───────────────────────────────────────────

  ghost predicate HasPythonBreak(s: string) {
    exists i :: 0 <= i < |s| && IsPythonBreak(s[i])
  }

  lemma {:induction false} SameLineLength(s: string)
    requires !HasPythonBreak(s)
    ensures LineLength(Python, s) == LineLength(Standard, s)
  {
    if s != "" {
      assert !IsPythonBreak(s[0]);
      assert forall i :: 0 <= i < |s[1..]| ==> s[1..][i] == s[i + 1];
      SameLineLength(s[1..]);
    }
  }

  /** Without the breaks that only Python knows, both cut the same lines. */
  lemma {:induction false} SameLines(s: string)
    requires !HasPythonBreak(s)
    ensures SplitLines(Python, s) == SplitLines(Standard, s)
    decreases |s|
  {
    if s != "" {
      SameLineLength(s);
      var n := LineLength(Standard, s);
      if n < |s| {
        var rest := AfterBreak(s[n..]);
        assert rest == s[|s| - |rest|..];
        assert forall i :: 0 <= i < |rest| ==> rest[i] == s[|s| - |rest| + i];
        SameLines(rest);
      }
    }
  }

  lemma BreakInPart(a: string, b: string)
    requires HasPythonBreak(a + b)
    ensures HasPythonBreak(a) || HasPythonBreak(b)
  {
    var i :| 0 <= i < |a + b| && IsPythonBreak((a + b)[i]);
    if i < |a| {
      assert IsPythonBreak(a[i]);
    } else {
      assert IsPythonBreak(b[i - |a|]);
    }
  }

  lemma BreakBehindEnd(s: string)
    requires s != "" && Ends(Standard, s[0]) && HasPythonBreak(s)
    ensures HasPythonBreak(AfterBreak(s))
  {
    var rest := AfterBreak(s);
    var end := s[..|s| - |rest|];
    assert s == end + rest;
    BreakInPart(end, rest);
  }

  lemma FirstLineIsCut(s: string) returns (line: string, tail: string)
    requires s != ""
    ensures s == line + tail && (tail != "" ==> Ends(Standard, tail[0]))
    ensures SplitLines(Standard, s) == [line] + if tail == "" then [] else SplitLines(Standard, AfterBreak(tail))
    ensures |tail| <= |s|
  {
    var n := LineLength(Standard, s);
    line, tail := s[..n], s[n..];
    hide LineLength;
  }

  /** Such a break lies within one of the standard's lines. */
  lemma {:induction false} BreakIsInLine(s: string) returns (at: nat)
    requires HasPythonBreak(s)
    ensures at < |SplitLines(Standard, s)| && HasPythonBreak(SplitLines(Standard, s)[at])
    decreases |s|
  {
    assert s != "";
    assert !HasPythonBreak("");
    hide SplitLines, AfterBreak, Ends, HasPythonBreak;
    var line, tail := FirstLineIsCut(s);
    BreakInPart(line, tail);
    if HasPythonBreak(line) {
      at := 0;
    } else {
      BreakBehindEnd(tail);
      at := BreakIsInLine(AfterBreak(tail));
      at := at + 1;
    }
  }

  /** A mark in front of a text is in front of its first line. */
  lemma MarkedLines(r: Reader, rest: string)
    ensures var lines := SplitLines(r, rest);
      SplitLines(r, [MARK] + rest) == if lines == [] then [[MARK]] else [[MARK] + lines[0]] + lines[1..]
  {
    var s := [MARK] + rest;
    assert s[1..] == rest;
    var n := LineLength(r, rest);
    assert LineLength(r, s) == n + 1;
    assert s[..n + 1] == [MARK] + rest[..n];
    assert s[n + 1..] == rest[n..];
    hide LineLength;
    if rest != "" {
      assert SplitLines(r, rest)[0] == rest[..n];
    }
  }

  // ── Breaks that only Python knows are lost ────────────────────────────────

  ghost predicate NoneHasBreak(texts: seq<string>) {
    forall i :: 0 <= i < |texts| ==> !HasPythonBreak(texts[i])
  }

  lemma {:induction false} JoinHasNoBreak(fields: seq<string>)
    requires NoneHasBreak(fields)
    ensures !HasPythonBreak(Join(fields, "\n"))
  {
    if |fields| > 1 {
      JoinHasNoBreak(fields[1..]);
      assert !HasPythonBreak(fields[0]) && !HasPythonBreak("\n");
    }
  }

  /** The parser's events hold none of them. */
  lemma {:induction false} ParserEventsHaveNone(fields: seq<string>, lines: seq<string>)
    requires NoneHasBreak(fields) && forall line :: line in lines ==> OnOneLine(Python, line)
    ensures NoneHasBreak(Events(fields, lines))
    decreases |lines|
  {
    if lines != [] {
      var line := lines[0];
      assert OnOneLine(Python, line);
      assert DATA <= line ==> !HasPythonBreak(DataValue(line));
      JoinHasNoBreak(fields);
      hide DataValue, OnOneLine, HasPythonBreak, Join;
      ParserEventsHaveNone(FrameLine(fields, line).0, lines[1..]);
    }
  }

  ghost predicate SomeHasBreak(texts: seq<string>) {
    exists i :: 0 <= i < |texts| && HasPythonBreak(texts[i])
  }

  lemma LaterHasBreak(a: seq<string>, b: seq<string>)
    requires SomeHasBreak(b)
    ensures SomeHasBreak(a + b)
  {
    var i :| 0 <= i < |b| && HasPythonBreak(b[i]);
    assert (a + b)[|a| + i] == b[i];
  }

  lemma FirstHasBreak(e: string, b: seq<string>)
    requires HasPythonBreak(e)
    ensures SomeHasBreak([e] + b)
  {
    assert ([e] + b)[0] == e;
  }

  lemma ConcatHasBreak(a: string, b: string, c: string)
    requires HasPythonBreak(a) || HasPythonBreak(b)
    ensures HasPythonBreak(a + b + c)
  {
    var s := a + b + c;
    if HasPythonBreak(a) {
      var i :| 0 <= i < |a| && IsPythonBreak(a[i]);
      assert s[i] == a[i];
    } else {
      var i :| 0 <= i < |b| && IsPythonBreak(b[i]);
      assert s[|a| + i] == b[i];
    }
  }

  /** A buffer as the standard fills it. */
  predicate IsBuffer(buffer: string) {
    buffer == "" || buffer[|buffer| - 1] == '\n'
  }

  lemma BufferWithoutEnd(buffer: string)
    requires IsBuffer(buffer) && HasPythonBreak(buffer)
    ensures HasPythonBreak(buffer[..|buffer| - 1])
  {
    var i :| 0 <= i < |buffer| && IsPythonBreak(buffer[i]);
    assert buffer[..|buffer| - 1][i] == buffer[i];
  }

  /** A break pending in the standard's buffer is dispatched with the next blank line. */
  lemma {:induction false} PendingBreakIsDispatched(buffer: string, lines: seq<string>)
    requires IsBuffer(buffer) && HasPythonBreak(buffer) && "" in lines
    ensures SomeHasBreak(StandardEvents(buffer, lines))
    decreases |lines|
  {
    var line, rest := lines[0], lines[1..];
    assert lines == [line] + rest;
    if line == "" {
      BlankLineDispatches([], buffer, rest);
      BufferWithoutEnd(buffer);
      FirstHasBreak(buffer[..|buffer| - 1], StandardEvents("", rest));
    } else {
      OtherLine([], buffer, line, rest);
      hide StandardEvents, HasPythonBreak, SomeHasBreak, DataValue;
      if line == "data" {
        ConcatHasBreak(buffer, "\n", "");
        assert buffer + "\n" + "" == buffer + "\n";
        PendingBreakIsDispatched(buffer + "\n", rest);
      } else if DATA <= line {
        ConcatHasBreak(buffer, DataValue(line), "\n");
        PendingBreakIsDispatched(buffer + DataValue(line) + "\n", rest);
      } else {
        PendingBreakIsDispatched(buffer, rest);
      }
    }
  }

  lemma ValueHasBreak(line: string)
    requires DATA <= line && HasPythonBreak(line)
    ensures HasPythonBreak(DataValue(line)) && line != "data" && line != ""
  {
    var value := line[5..];
    assert line == DATA + value;
    BreakInPart(DATA, value);
    if value[0] == ' ' {
      assert value == " " + value[1..];
      BreakInPart(" ", value[1..]);
    }
  }

  /** A data line with such a break, once dispatched, shows it in an event of the standard. */
  lemma {:induction false} LineBreakIsDispatched(buffer: string, lines: seq<string>, at: nat)
    requires at < |lines| && DATA <= lines[at] && HasPythonBreak(lines[at]) && IsDispatched(lines, at)
    requires IsBuffer(buffer)
    ensures SomeHasBreak(StandardEvents(buffer, lines))
    decreases |lines|
  {
    var line, rest := lines[0], lines[1..];
    assert lines == [line] + rest;
    if at == 0 {
      ValueHasBreak(line);
      OtherLine([], buffer, line, rest);
      hide StandardEvents, HasPythonBreak, SomeHasBreak, DataValue;
      ConcatHasBreak(buffer, DataValue(line), "\n");
      PendingBreakIsDispatched(buffer + DataValue(line) + "\n", rest);
    } else {
      assert rest[at - 1..] == lines[at..] && rest[at - 1 + 1..] == lines[at + 1..];
      hide HasPythonBreak, SomeHasBreak, DataValue;
      if line == "" {
        BlankLineDispatches([], buffer, rest);
        hide StandardEvents;
        LineBreakIsDispatched("", rest, at - 1);
        LaterHasBreak(if buffer == "" then [] else [buffer[..|buffer| - 1]], StandardEvents("", rest));
      } else {
        OtherLine([], buffer, line, rest);
        hide StandardEvents;
        if line == "data" {
          LineBreakIsDispatched(buffer + "\n", rest, at - 1);
        } else if DATA <= line {
          LineBreakIsDispatched(buffer + DataValue(line) + "\n", rest, at - 1);
        } else {
          LineBreakIsDispatched(buffer, rest, at - 1);
        }
      }
    }
  }

  // ── The two readings of one text ──────────────────────────────────────────

  lemma NoDataLine(line: string)
    requires line != "" && line[0] != 'd'
    ensures !(DATA <= line)
  {
  }

  /** Behind a mark the parser passes over the first line, whatever it is. */
  lemma MarkedLineIsPassedOver(first: string, rest: seq<string>)
    ensures Events([], [[MARK] + first] + rest) == Events([], rest)
  {
    var line := [MARK] + first;
    NoDataLine(line);
    assert ([line] + rest)[1..] == rest;
  }

  /** What is pending for the standard but not in the parser shows exactly if it is dispatched. */
  lemma PendingShowsExactly(buffer: string, lines: seq<string>)
    requires buffer != ""
    ensures Events([], lines) == StandardEvents(buffer, lines) <==> "" !in lines
  {
    if "" in lines {
      WeightsDiffer([], buffer, lines);
    } else {
      NothingDispatched([], buffer, lines);
    }
  }

  lemma LostBehindFirst(marked: bool, first: string, rest: seq<string>)
    ensures NothingLost(marked, [first] + rest) <==> NothingLost(false, rest) && !IsLost(marked, [first] + rest, 0)
  {
    var lines := [first] + rest;
    forall i | 0 <= i < |rest| ensures IsLost(false, rest, i) <==> IsLost(marked, lines, i + 1) {
      assert rest[i + 1..] == lines[i + 2..];
    }
    hide IsLost;
    if NothingLost(false, rest) && !IsLost(marked, lines, 0) {
      forall i | 0 <= i < |lines| ensures !IsLost(marked, lines, i) {
        if i > 0 {
          assert !IsLost(false, rest, i - 1);
        }
      }
    }
    if NothingLost(marked, lines) {
      forall i | 0 <= i < |rest| ensures !IsLost(false, rest, i) {
        assert !IsLost(marked, lines, i + 1);
      }
    }
  }

  lemma PendingBehindMark(first: string, rest: seq<string>) returns (buffer: string)
    requires first == "data" || DATA <= first
    ensures buffer != "" && StandardEvents("", [first] + rest) == StandardEvents(buffer, rest)
  {
    OtherLine([], "", first, rest);
    buffer := if first == "data" then "" + "\n" else "" + DataValue(first) + "\n";
  }

  lemma LostFirst(first: string, rest: seq<string>)
    ensures IsLost(true, [first] + rest, 0) <==> "" in rest && (first == "data" || DATA <= first)
  {
    assert ([first] + rest)[1..] == rest;
  }

  /** Behind a mark, line by line. */
  lemma MarkedExactly(first: string, rest: seq<string>)
    ensures Events([], [[MARK] + first] + rest) == StandardEvents("", [first] + rest) <==> NothingLost(true, [first] + rest)
  {
    MarkedLineIsPassedOver(first, rest);
    LostBehindFirst(true, first, rest);
    LostFirst(first, rest);
    hide IsLost, NothingLost, Events, StandardEvents;
    if first == "data" || DATA <= first {
      var buffer := PendingBehindMark(first, rest);
      PendingShowsExactly(buffer, rest);
      if "" !in rest {
        NothingLostWithoutBlank(rest);
      }
    } else {
      EqualExactly([], "", rest);
      if first == "" {
        BlankLineDispatches([], "", rest);
        assert [] + StandardEvents("", rest) == StandardEvents("", rest);
      } else {
        OtherLine([], "", first, rest);
      }
    }
  }

  lemma NothingLostWithoutBlank(lines: seq<string>)
    requires "" !in lines
    ensures NothingLost(false, lines)
  {
  }

  /** Where only the standard's line ends occur, the readings are equal exactly if nothing is lost. */
  lemma PlainTextExactly(raw: string)
    requires !HasPythonBreak(raw)
    ensures ParserReading(raw) == StandardReading(raw) <==> NothingLost(IsMarked(raw), StandardLines(raw))
  {
    SameLines(raw);
    if IsMarked(raw) {
      MarkedTextExactly(raw[1..]);
      assert raw == [MARK] + raw[1..];
    } else {
      hide SplitLines, Events, StandardEvents, NothingLost;
      EqualExactly([], "", StandardLines(raw));
    }
  }

  lemma MarkedTextExactly(rest: string)
    ensures var lines := SplitLines(Standard, rest);
            Events([], SplitLines(Standard, [MARK] + rest)) == StandardEvents("", lines) <==> NothingLost(true, lines)
  {
    MarkedLines(Standard, rest);
    var lines := SplitLines(Standard, rest);
    if lines == [] {
      MarkedLineIsPassedOver("", []);
      assert [MARK] + "" == [MARK] && [[MARK] + ""] + [] == [[MARK]];
    } else {
      hide SplitLines, Events, StandardEvents, NothingLost;
      MarkedExactly(lines[0], lines[1..]);
      assert [lines[0]] + lines[1..] == lines;
    }
  }

  /** Breaks that only Python knows occur at most in data lines that are dispatched. */
  ghost predicate BreaksInDataOnly(lines: seq<string>) {
    forall i :: 0 <= i < |lines| && HasPythonBreak(lines[i]) ==> DATA <= lines[i] && IsDispatched(lines, i)
  }

  lemma MarkIsNoBreak(raw: string)
    requires HasPythonBreak(raw)
    ensures HasPythonBreak(if IsMarked(raw) then raw[1..] else raw)
  {
    var text := if IsMarked(raw) then raw[1..] else raw;
    var i :| 0 <= i < |raw| && IsPythonBreak(raw[i]);
    assert IsMarked(raw) ==> i > 0 && text[i - 1] == raw[i];
  }

  lemma StandardSeesBreak(raw: string)
    requires HasPythonBreak(raw) && BreaksInDataOnly(StandardLines(raw))
    ensures SomeHasBreak(StandardReading(raw))
  {
    MarkIsNoBreak(raw);
    hide SplitLines, HasPythonBreak, IsDispatched, StandardEvents, SomeHasBreak;
    var at := BreakIsInLine(if IsMarked(raw) then raw[1..] else raw);
    LineBreakIsDispatched("", StandardLines(raw), at);
  }

  lemma ParserSeesNone(raw: string)
    ensures NoneHasBreak(ParserReading(raw))
  {
    hide SplitLines, Events, OnOneLine;
    LinesAreOnOneLine(Python, raw);
    NoFieldsHaveBreak();
    hide NoneHasBreak;
    ParserEventsHaveNone([], SplitLines(Python, raw));
  }

  lemma NoFieldsHaveBreak()
    ensures NoneHasBreak([])
  {
  }

  lemma BreakMakesThemDiffer(raw: string)
    requires HasPythonBreak(raw) && BreaksInDataOnly(StandardLines(raw))
    ensures ParserReading(raw) != StandardReading(raw)
  {
    StandardSeesBreak(raw);
    ParserSeesNone(raw);
    hide ParserReading, StandardReading, HasPythonBreak;
  }

  /**
   Main result: of every text whose Python-only breaks, if it has any, stand in dispatched data
   lines, the parser sees the standard's events if and only if the text has no such break, no bare
   "data" line that is dispatched, and no dispatched data line right behind a byte order mark.
   */
  lemma FramingIsStandard(raw: string)
    requires BreaksInDataOnly(StandardLines(raw))
    ensures ParserReading(raw) == StandardReading(raw) <==>
            !HasPythonBreak(raw) && NothingLost(IsMarked(raw), StandardLines(raw))
  {
    hide *;
    if HasPythonBreak(raw) {
      BreakMakesThemDiffer(raw);
    } else {
      PlainTextExactly(raw);
    }
  }

  // ── Inputs at which the readings differ ───────────────────────────────────

  lemma TwoLines(r: Reader, line: string)
    requires OnOneLine(r, line)
    ensures SplitLines(r, line + BLANK) == [line, ""]
  {
    NewlineEnds(r, "\n");
    NewlineEnds(r, "");
    assert "\n" + "\n" == BLANK && "\n" + "" == "\n" && "" + "\n" == "\n";
    SplitFirstLine(r, line, BLANK);
    SplitFirstLine(r, "", "\n");
    hide SplitLines, OnOneLine, Ends;
  }

  /** One line and a blank line, as the standard sees them. */
  lemma StandardReadsTwo(line: string)
    requires OnOneLine(Standard, line) && line != "" && line[0] != MARK
    ensures StandardReading(line + BLANK) == StandardEvents("", [line, ""])
  {
    TwoLines(Standard, line);
    assert (line + BLANK)[0] == line[0];
    hide SplitLines, StandardEvents;
  }

  lemma ParserReads(raw: string, lines: seq<string>)
    requires SplitLines(Python, raw) == lines
    ensures ParserReading(raw) == Events([], lines)
  {
  }

  lemma OneDataEvent(value: string)
    ensures Events([], [DataLine(value), ""]) == [value] && StandardEvents("", [DataLine(value), ""]) == [value]
  {
    var line := DataLine(value);
    DataLineFacts(value);
    hide DataLine, DataValue;
    OtherLine([], "", line, [""]);
    assert [] + [value] == [value] && [line] + [""] == [line, ""] && [""] + [] == [""];
    var buffer := "" + value + "\n";
    assert buffer[..|buffer| - 1] == value && Join([value], "\n") == value;
    hide Join;
    BlankLineDispatches([value], buffer, []);
  }

  /** A line that frames nothing, and a blank line. */
  lemma NoEvent(line: string)
    requires line != "" && line != "data" && !(DATA <= line)
    ensures Events([], [line, ""]) == [] && StandardEvents("", [line, ""]) == []
  {
    OtherLine([], "", line, [""]);
    BlankLineDispatches([], "", []);
    assert [line] + [""] == [line, ""] && [""] + [] == [""];
  }

  /** A bare "data" is an empty field to the standard and nothing to the parser. */
  lemma BareDataIsLost()
    ensures ParserReading("data" + BLANK) == [] && StandardReading("data" + BLANK) == [""]
  {
    var line := "data";
    assert line[0] == 'd' && OnOneLine(Python, line) && OnOneLine(Standard, line);
    TwoLines(Python, line);
    StandardReadsTwo(line);
    OtherLine([], "", line, [""]);
    BlankLineDispatches([], "\n", []);
    assert [line] + [""] == [line, ""] && "" + "\n" == "\n" && [""] + [] == [""];
    hide SplitLines, Events, StandardEvents;
  }

  /** A break that only Python knows cuts a line in two. */
  lemma BreakCuts(head: string, c: char, tail: string)
    requires OnOneLine(Python, head) && OnOneLine(Python, tail) && IsPythonBreak(c)
    ensures SplitLines(Python, head + ([c] + (tail + BLANK))) == [head, tail, ""]
  {
    var rest := tail + BLANK;
    assert AfterBreak([c] + rest) == rest && Ends(Python, ([c] + rest)[0]);
    TwoLines(Python, tail);
    hide SplitLines, OnOneLine, IsPythonBreak, Ends, AfterBreak;
    SplitFirstLine(Python, head, [c] + rest);
    assert [head] + [tail, ""] == [head, tail, ""];
  }

  /** After the cut the parser has the event up to the break, and a line that frames nothing. */
  lemma ReadToBreak(value: string, tail: string)
    requires tail != "" && tail != "data" && !(DATA <= tail)
    ensures Events([], [DataLine(value), tail, ""]) == [value]
  {
    var line := DataLine(value);
    DataLineFacts(value);
    hide DataLine, DataValue;
    OtherLine([], "", line, [tail, ""]);
    OtherLine([value], "", tail, [""]);
    assert [line] + [tail, ""] == [line, tail, ""] && [tail] + [""] == [tail, ""] && [] + [value] == [value] && [""] + [] == [""];
    assert Join([value], "\n") == value;
    hide Join;
    BlankLineDispatches([value], "", []);
  }

  lemma Regroup(a: string, b: string, c: string, d: string)
    ensures a + (b + (c + d)) == a + (b + c) + d
  {
  }

  lemma BrokenLineFacts(value: string, c: char, tail: string)
    requires OnOneLine(Standard, value) && OnOneLine(Standard, tail) && IsPythonBreak(c)
    ensures OnOneLine(Standard, value + ([c] + tail)) && DataLine(value + ([c] + tail)) == DataLine(value) + ([c] + tail)
  {
  }

  lemma PythonIsStricter(s: string)
    requires OnOneLine(Python, s)
    ensures OnOneLine(Standard, s)
  {
  }

  /** A break that only Python knows, within a data line, cuts the event off in the parser. */
  lemma BreakIsLost(value: string, c: char, tail: string)
    requires OnOneLine(Python, value) && OnOneLine(Python, tail) && IsPythonBreak(c)
    requires tail != "" && tail != "data" && !(DATA <= tail)
    ensures var raw := DataLine(value) + ([c] + (tail + BLANK));
      ParserReading(raw) == [value] && StandardReading(raw) == [value + ([c] + tail)]
  {
    var whole := value + ([c] + tail);
    PythonIsStricter(value);
    PythonIsStricter(tail);
    BrokenLineFacts(value, c, tail);
    DataLineFacts(value);
    DataLineFacts(whole);
    DataLineIsOneLine(Python, value);
    DataLineIsOneLine(Standard, whole);
    hide DataLine, DataValue, OnOneLine, IsPythonBreak;
    Regroup(DataLine(value), [c], tail, BLANK);
    StandardReadsTwo(DataLine(whole));
    OneDataEvent(whole);
    BreakCuts(DataLine(value), c, tail);
    ReadToBreak(value, tail);
    ParserReads(DataLine(value) + ([c] + (tail + BLANK)), [DataLine(value), tail, ""]);
  }

  lemma LineSeparatorIsLost()
    ensures var raw := DataLine("a") + (['\U{2028}'] + ("b" + BLANK));
      ParserReading(raw) == ["a"] && StandardReading(raw) == ["a" + (['\U{2028}'] + "b")]
  {
    NoDataLine("b");
    BreakIsLost("a", '\U{2028}', "b");
  }

  lemma CommentReads(c: char, tail: string)
    requires IsPythonBreak(c) && OnOneLine(Python, tail)
    ensures var raw := ":" + ([c] + (tail + BLANK)); ParserReading(raw) == Events([], [tail, ""]) && StandardReading(raw) == []
  {
    var line := ":" + ([c] + tail);
    assert line[0] == ':' && OnOneLine(Standard, line);
    NoDataLine(":");
    NoDataLine(line);
    assert line != "data" && ":" != "data" && OnOneLine(Python, ":");
    hide OnOneLine, IsPythonBreak;
    Regroup(":", [c], tail, BLANK);
    StandardReadsTwo(line);
    NoEvent(line);
    BreakCuts(":", c, tail);
    ParserReads(":" + ([c] + (tail + BLANK)), [":", tail, ""]);
    OtherLine([], "", ":", [tail, ""]);
    assert [":"] + [tail, ""] == [":", tail, ""];
  }

  /** In a comment such a break may do no harm, or add an event to those of the standard. */
  lemma BreakInComment(c: char)
    requires IsPythonBreak(c)
    ensures var raw := ":" + ([c] + ("x" + BLANK)); ParserReading(raw) == StandardReading(raw)
    ensures var raw := ":" + ([c] + (DataLine("a") + BLANK)); ParserReading(raw) == ["a"] && StandardReading(raw) == []
  {
    NoDataLine("x");
    NoEvent("x");
    CommentReads(c, "x");
    OneDataEvent("a");
    DataLineIsOneLine(Python, "a");
    hide DataLine, DataValue;
    CommentReads(c, DataLine("a"));
  }

  /** The parser does not know the byte order mark. */
  lemma MarkIsLost()
    ensures var raw := [MARK] + (DataLine("a") + BLANK); ParserReading(raw) == [] && StandardReading(raw) == ["a"]
  {
    DataLineFacts("a");
    DataLineIsOneLine(Python, "a");
    DataLineIsOneLine(Standard, "a");
    OneDataEvent("a");
    hide DataLine, DataValue;
    MarkedReads(DataLine("a"));
    StandardReadsTwo(DataLine("a"));
  }

  lemma MarkedReads(line: string)
    requires OnOneLine(Python, line) && line != "" && line[0] != MARK
    ensures var raw := [MARK] + (line + BLANK); ParserReading(raw) == [] && StandardReading(raw) == StandardReading(line + BLANK)
  {
    var rest := line + BLANK;
    var raw := [MARK] + rest;
    assert raw[1..] == rest && rest[0] == line[0];
    TwoLines(Python, line);
    MarkedLines(Python, rest);
    hide SplitLines, OnOneLine;
    MarkedLineIsPassedOver(line, [""]);
    BlankLineDispatches([], "", []);
    assert [""] + [] == [""] && [line, ""][1..] == [""];
    hide Events, StandardEvents;
  }
}
