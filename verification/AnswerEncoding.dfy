/**
 Encoders in front of the answer-stream parser (experiments/answer-quality/run.py): which encoded
 streams it reads back, and that it accepts none that is cut off.  The encoder of this repository
 is runChatGptAnswerStream in src/lib/chatgpt.ts.
 */
module AnswerEncoding {
  import opened AnswerStream
  import opened EventFraming
  import opened EventLines
  import opened Options
  import opened Splitting

  // ── Encoders ──────────────────────────────────────────────────────────────

  /** A JSON codec: decoding inverts encoding, and [DONE] is no JSON. */
  ghost predicate IsCodec(encode: Event -> string, decode: string -> Option<Event>) {
    (forall e: Event :: decode(encode(e)) == Some(e)) && decode(DONE) == None
  }

  /**
   An encoding broken off at one of its line breaks does not decode, neither alone nor with a line
   feed behind it.  JSON is so: line breaks stand in its string literals only, and a raw line feed
   may not stand there.
   */
  ghost predicate BreaksSpoil(encode: Event -> string, decode: string -> Option<Event>) {
    forall e: Event, i: nat, more: string :: IsSpoiled(encode, decode, e, i, more)
  }

  ghost predicate IsSpoiled(encode: Event -> string, decode: string -> Option<Event>, e: Event, i: nat, more: string) {
    i < |encode(e)| && Ends(Python, encode(e)[i]) && (more == "" || more[0] == '\n') ==> decode(encode(e)[..i] + more) == None
  }

  function ChunkChoice(text: string): Choice { Choice(true, Text(text), Absent) }

  const STOP_CHOICE := Choice(true, Absent, Text("stop"))

  function EventOf(choice: Choice): Event { Event(false, Some([choice])) }

  /** One event for each choice. */
  function Bodies(choices: seq<Choice>, encode: Event -> string): (r: seq<string>)
    ensures |r| == |choices|
  {
    seq(|choices|, i requires 0 <= i < |choices| => encode(EventOf(choices[i])))
  }

  function AnswerChoices(chunks: seq<string>): seq<Choice> {
    seq(|chunks|, i requires 0 <= i < |chunks| => ChunkChoice(chunks[i])) + [STOP_CHOICE]
  }

  function Payloads(chunks: seq<string>, encode: Event -> string): seq<string> {
    Bodies(AnswerChoices(chunks), encode) + [DONE]
  }

  /** The lines of a stream with the given payloads: a data line and a blank line each. */
  function StreamLines(payloads: seq<string>): (lines: seq<string>)
    ensures |lines| == 2 * |payloads|
  {
    if payloads == [] then [] else [DataLine(payloads[0]), ""] + StreamLines(payloads[1..])
  }

  function Stream(payloads: seq<string>): string {
    Broken(StreamLines(payloads), '\n')
  }

  /** One event per chunk, the stop, and [DONE]. */
  function Encode(chunks: seq<string>, encode: Event -> string): string {
    Stream(Payloads(chunks, encode))
  }

  function Concat(chunks: seq<string>): string {
    if chunks == [] then "" else chunks[0] + Concat(chunks[1..])
  }

  ghost predicate AllOnOneLine(r: Reader, lines: seq<string>) {
    forall i :: 0 <= i < |lines| ==> OnOneLine(r, lines[i])
  }

  // ── Reading streams ───────────────────────────────────────────────────────

  /** A prefix of ended lines is some of the lines, and a prefix of the next one. */
  lemma {:induction false} PrefixOfBroken(lines: seq<string>, p: string) returns (k: nat, tail: string)
    requires p <= Broken(lines, '\n')
    ensures k <= |lines| && p == Broken(lines[..k], '\n') + tail
    ensures if k == |lines| then tail == "" else tail <= lines[k]
    decreases |lines|
  {
    if lines == [] {
      k, tail := 0, "";
    } else if |p| <= |lines[0]| {
      k, tail := 0, p;
      assert Broken(lines, '\n')[..|p|] == lines[0][..|p|];
    } else {
      var n := |lines[0]| + 1;
      assert Broken(lines, '\n')[n..] == Broken(lines[1..], '\n');
      assert p[..n] == lines[0] + ['\n'];
      k, tail := PrefixOfBroken(lines[1..], p[n..]);
      k := k + 1;
      assert lines[..k][1..] == lines[1..][..k - 1];
      assert p == p[..n] + p[n..];
    }
  }

  lemma DataLineRead(payload: string, rest: seq<string>)
    ensures Events([], [DataLine(payload)] + rest) == Events([payload], rest)
    ensures Leftover([], [DataLine(payload)] + rest) == Leftover([payload], rest)
  {
    DataLineFacts(payload);
    assert ([DataLine(payload)] + rest)[1..] == rest;
    hide DataLine, DataValue;
    assert [] + [payload] == [payload];
  }

  /** A data line and a blank line dispatch their payload. */
  lemma ReadPair(payload: string, rest: seq<string>)
    ensures Events([], [DataLine(payload), ""] + rest) == [payload] + Events([], rest)
    ensures Leftover([], [DataLine(payload), ""] + rest) == Leftover([], rest)
  {
    assert [DataLine(payload), ""] + rest == [DataLine(payload)] + ([""] + rest);
    DataLineRead(payload, [""] + rest);
    hide DataLine;
    assert ([""] + rest)[1..] == rest && Join([payload], "\n") == payload;
    hide Join;
    assert FrameLine([payload], "") == ([], Some(Join([payload], "\n")));
  }

  lemma {:induction false} StreamLinesOnOneLine(r: Reader, payloads: seq<string>)
    requires AllOnOneLine(r, payloads)
    ensures AllOnOneLine(r, StreamLines(payloads))
    decreases |payloads|
  {
    if payloads != [] {
      DataLineIsOneLine(r, payloads[0]);
      assert OnOneLine(r, "");
      hide OnOneLine, DataLine;
      StreamLinesOnOneLine(r, payloads[1..]);
    }
  }

  lemma StreamLinesUnfold(payloads: seq<string>, rest: seq<string>)
    ensures payloads == [] ==> StreamLines(payloads) + rest == rest
    ensures payloads != [] ==> StreamLines(payloads) + rest == [DataLine(payloads[0]), ""] + (StreamLines(payloads[1..]) + rest)
  {
    hide DataLine;
  }

  lemma FirstAndRest(payloads: seq<string>, events: seq<string>)
    ensures payloads == [] ==> payloads + events == events
    ensures payloads != [] ==> [payloads[0]] + (payloads[1..] + events) == payloads + events
  {
  }

  /** Whatever follows a stream is read after its payloads. */
  lemma {:induction false} EventsBehind(payloads: seq<string>, rest: seq<string>)
    ensures Events([], StreamLines(payloads) + rest) == payloads + Events([], rest)
    ensures Leftover([], StreamLines(payloads) + rest) == Leftover([], rest)
    decreases |payloads|
  {
    hide *;
    StreamLinesUnfold(payloads, rest);
    FirstAndRest(payloads, Events([], rest));
    if payloads != [] {
      ReadPair(payloads[0], StreamLines(payloads[1..]) + rest);
      EventsBehind(payloads[1..], rest);
    }
  }

  lemma {:induction false} HalfOfStream(payloads: seq<string>, k: nat)
    requires k <= 2 * |payloads|
    ensures StreamLines(payloads)[..k] == StreamLines(payloads[..k / 2]) + if k % 2 == 1 then [DataLine(payloads[k / 2])] else []
    decreases |payloads|
  {
    hide DataLine;
    if k == 1 {
      assert payloads[..0] == [];
    } else if k >= 2 {
      HalfOfStream(payloads[1..], k - 2);
      assert payloads[..k / 2][1..] == payloads[1..][..(k - 2) / 2];
      assert StreamLines(payloads)[..k] == [DataLine(payloads[0]), ""] + StreamLines(payloads[1..])[..k - 2];
    }
  }

  /** A last line that is not empty dispatches nothing. */
  lemma UndispatchedTail(fields: seq<string>, tail: seq<string>)
    requires |tail| <= 1 && (tail != [] ==> tail[0] != "")
    ensures Events(fields, tail) == []
  {
    if tail != [] {
      assert tail[1..] == [];
      assert Events(fields, tail) == [] + Events(FrameLine(fields, tail[0]).0, []);
    }
  }

  /** Reading whole payloads and a line behind them that is not empty dispatches those payloads. */
  lemma EventsOfWhole(whole: seq<string>, last: seq<string>)
    requires |last| <= 1 && (last != [] ==> last[0] != "")
    ensures Events([], StreamLines(whole) + last) == whole
  {
    UndispatchedTail([], last);
    EventsBehind(whole, last);
    hide *;
    assert whole + [] == whole;
  }

  lemma EventsOfHalf(whole: seq<string>, payload: string, last: seq<string>)
    requires |last| <= 1 && (last != [] ==> last[0] != "")
    ensures Events([], StreamLines(whole) + [DataLine(payload)] + last) == whole
  {
    DataLineRead(payload, last);
    UndispatchedTail([payload], last);
    EventsBehind(whole, [DataLine(payload)] + last);
    hide *;
    assert whole + [] == whole;
    assert StreamLines(whole) + [DataLine(payload)] + last == StreamLines(whole) + ([DataLine(payload)] + last);
  }

  /** Reading k lines of a stream, and possibly part of the next, dispatches exactly k / 2 events. */
  lemma EventsOfPrefix(payloads: seq<string>, k: nat, last: seq<string>)
    requires k <= 2 * |payloads| && |last| <= 1 && (last != [] ==> last[0] != "")
    ensures Events([], StreamLines(payloads)[..k] + last) == payloads[..k / 2]
  {
    HalfOfStream(payloads, k);
    hide *;
    var whole := payloads[..k / 2];
    if k % 2 == 1 {
      EventsOfHalf(whole, payloads[k / 2], last);
    } else {
      EventsOfWhole(whole, last);
      assert StreamLines(whole) + [] == StreamLines(whole);
    }
  }

  /** A proper prefix of a stream dispatches only payloads before the last one. */
  lemma CutEvents(payloads: seq<string>, cut: string)
    requires payloads != [] && AllOnOneLine(Python, payloads)
    requires cut <= Stream(payloads) && cut != Stream(payloads)
    ensures Events([], SplitLines(Python, cut)) <= payloads[..|payloads| - 1]
  {
    var lines := StreamLines(payloads);
    StreamLinesOnOneLine(Python, payloads);
    hide SplitLines, Events, StreamLines, DataLine;
    var k, tail := PrefixOfBroken(lines, cut);
    assert lines[..|lines|] == lines;
    assert k < |lines|;
    assert OnOneLine(Python, tail) by { assert OnOneLine(Python, lines[k]); }
    hide OnOneLine;
    SplitLinesOfBroken(Python, lines[..k], tail);
    SplitTail(tail);
    EventsOfPrefix(payloads, k, SplitLines(Python, tail));
  }

  lemma SplitTail(tail: string)
    requires OnOneLine(Python, tail)
    ensures SplitLines(Python, tail) == if tail == "" then [] else [tail]
  {
    SplitFirstLine(Python, tail, "");
    assert tail + "" == tail;
  }

  /** The events in a stream whose payloads are on one line each are its payloads. */
  lemma StreamReads(r: Reader, payloads: seq<string>)
    requires AllOnOneLine(r, payloads)
    ensures SplitLines(r, Stream(payloads)) == StreamLines(payloads)
    ensures Events([], StreamLines(payloads)) == payloads && Leftover([], StreamLines(payloads)) == []
  {
    var lines := StreamLines(payloads);
    StreamLinesOnOneLine(r, payloads);
    SplitLinesOfBroken(r, lines, "");
    EventsBehind(payloads, []);
    assert SplitLines(r, "") == [] && Events([], []) == [] && Leftover([], []) == [];
    hide SplitLines, Events, Leftover, StreamLines;
    assert Stream(payloads) + "" == Stream(payloads) && lines + [] == lines && payloads + [] == payloads;
  }

  // ── Streams on clean lines are read back ──────────────────────────────────

  lemma {:induction false} ChoicesOfBodies(choices: seq<Choice>, encode: Event -> string, decode: string -> Option<Event>)
    requires IsCodec(encode, decode)
    ensures ChoicesOf(Bodies(choices, encode), decode) == Some(choices)
    ensures DONE !in Bodies(choices, encode)
    decreases |choices|
  {
    var bodies := Bodies(choices, encode);
    if choices != [] {
      ChoicesOfBodies(choices[1..], encode, decode);
      assert bodies[1..] == Bodies(choices[1..], encode);
      assert decode(bodies[0]) == Some(EventOf(choices[0]));
      assert [choices[0]] + choices[1..] == choices;
    }
  }

  lemma {:induction false} TextOfAnswer(chunks: seq<string>)
    ensures TextOf(AnswerChoices(chunks)) == Concat(chunks)
    decreases |chunks|
  {
    var choices := AnswerChoices(chunks);
    if chunks == [] {
      assert choices[1..] == [];
    } else {
      assert choices[1..] == AnswerChoices(chunks[1..]);
      TextOfAnswer(chunks[1..]);
    }
  }

  lemma AnswerChoicesAreGood(chunks: seq<string>)
    ensures GoodChoices(AnswerChoices(chunks)) && EndsWithStop(AnswerChoices(chunks))
  {
  }

  /** The payloads of an answer are a complete answer. */
  lemma PayloadsAreComplete(chunks: seq<string>, encode: Event -> string, decode: string -> Option<Event>)
    requires IsCodec(encode, decode)
    ensures CompleteAnswer(Payloads(chunks, encode), decode, Concat(chunks))
  {
    var choices := AnswerChoices(chunks);
    var bodies := Bodies(choices, encode);
    AnswerChoicesAreGood(chunks);
    ChoicesOfBodies(choices, encode, decode);
    TextOfAnswer(chunks);
    hide GoodChoices, EndsWithStop, ChoicesOf, Bodies, AnswerChoices, Concat, TextOf;
    assert (bodies + [DONE])[..|bodies|] == bodies;
  }

  /** The parser inverts every encoder on the streams whose payloads it leaves on one line each. */
  lemma DecodesEncoded(chunks: seq<string>, encode: Event -> string, decode: string -> Option<Event>)
    requires IsCodec(encode, decode) && AllOnOneLine(Python, Payloads(chunks, encode))
    ensures Verdict(Encode(chunks, encode), decode) == Ok(Concat(chunks))
  {
    PayloadsAreComplete(chunks, encode, decode);
    StreamReads(Python, Payloads(chunks, encode));
    hide IsCodec, AllOnOneLine, Payloads, Concat, CompleteAnswer, SplitLines, Events, Leftover, Verdict, Stream;
    AcceptedExactly(Encode(chunks, encode), decode, Concat(chunks));
  }

  lemma WithoutDoneIsIncomplete(events: seq<string>, decode: string -> Option<Event>, text: string)
    requires DONE !in events
    ensures !CompleteAnswer(events, decode, text)
  {
  }

  lemma NotAccepted(raw: string, decode: string -> Option<Event>)
    requires forall text: string :: !CompleteAnswer(Events([], SplitLines(Python, raw)), decode, text)
    ensures Verdict(raw, decode).Rejected?
  {
    hide CompleteAnswer;
    if Verdict(raw, decode).Ok? {
      AcceptedExactly(raw, decode, Verdict(raw, decode).value);
    }
  }

  lemma CutIsRejected(choices: seq<Choice>, last: string, encode: Event -> string, decode: string -> Option<Event>, cut: string)
    requires IsCodec(encode, decode) && AllOnOneLine(Python, Bodies(choices, encode) + [last])
    requires cut <= Stream(Bodies(choices, encode) + [last]) && cut != Stream(Bodies(choices, encode) + [last])
    ensures Verdict(cut, decode).Rejected?
  {
    var bodies := Bodies(choices, encode);
    ChoicesOfBodies(choices, encode, decode);
    CutEvents(bodies + [last], cut);
    assert (bodies + [last])[..|bodies|] == bodies;
    hide SplitLines, Events, Stream, IsCodec, Bodies, CompleteAnswer, Verdict;
    var events := Events([], SplitLines(Python, cut));
    assert DONE !in events;
    forall text: string ensures !CompleteAnswer(events, decode, text) {
      WithoutDoneIsIncomplete(events, decode, text);
    }
    NotAccepted(cut, decode);
  }

  // ── Streams with a broken payload are not accepted, whole or cut ──────────

  lemma {:induction false} StreamOfConcat(a: seq<string>, b: seq<string>)
    ensures Stream(a + b) == Stream(a) + Stream(b)
    decreases |a|
  {
    hide DataLine;
    if a == [] {
      assert a + b == b && "" + Stream(b) == Stream(b);
    } else {
      assert (a + b)[1..] == a[1..] + b;
      StreamOfConcat(a[1..], b);
      StreamOfFirst(a);
      StreamOfFirst(a + b);
      hide Stream;
      var first := DataLine(a[0]) + BLANK;
      assert first + (Stream(a[1..]) + Stream(b)) == first + Stream(a[1..]) + Stream(b);
    }
  }

  lemma StreamOfFirst(payloads: seq<string>)
    requires payloads != []
    ensures Stream(payloads) == DataLine(payloads[0]) + BLANK + Stream(payloads[1..])
  {
    var lines := StreamLines(payloads);
    var rest := Broken(StreamLines(payloads[1..]), '\n');
    assert lines[0] == DataLine(payloads[0]) && lines[1..] == [""] + StreamLines(payloads[1..]) && ([""] + StreamLines(payloads[1..]))[1..] == StreamLines(payloads[1..]);
    hide DataLine, StreamLines;
    assert Broken(lines[1..], '\n') == "" + ['\n'] + rest;
    assert Broken(lines, '\n') == lines[0] + ['\n'] + ("" + ['\n'] + rest);
  }

  /** The first payload that is not on one line, up to its first break and behind it. */
  lemma {:induction false} FirstBroken(payloads: seq<string>) returns (at: nat, head: string, tail: string)
    requires !AllOnOneLine(Python, payloads)
    ensures at < |payloads| && AllOnOneLine(Python, payloads[..at])
    ensures payloads[at] == head + tail && OnOneLine(Python, head) && tail != "" && Ends(Python, tail[0])
    decreases |payloads|
  {
    var first := payloads[0];
    if OnOneLine(Python, first) {
      assert exists i :: 0 <= i < |payloads[1..]| && !OnOneLine(Python, payloads[1..][i]) by {
        var i :| 0 <= i < |payloads| && !OnOneLine(Python, payloads[i]);
        assert payloads[1..][i - 1] == payloads[i];
      }
      hide OnOneLine, Ends;
      at, head, tail := FirstBroken(payloads[1..]);
      at := at + 1;
      assert payloads[..at] == [first] + payloads[1..][..at - 1];
    } else {
      var n := LineLength(Python, first);
      assert first[..n] + first[n..] == first;
      at, head, tail := 0, first[..n], first[n..];
    }
  }

  /** If there is a first event, it is the given text, alone or going on with a line feed. */
  ghost predicate FirstGoesOn(events: seq<string>, text: string) {
    events == [] || exists more: string :: (more == "" || more[0] == '\n') && events[0] == text + more
  }

  lemma GoesOnFurther(events: seq<string>, text: string, value: string)
    requires FirstGoesOn(events, text + "\n" + value)
    ensures FirstGoesOn(events, text)
  {
    if events != [] {
      var more: string :| events[0] == text + "\n" + value + more;
      assert text + "\n" + value + more == text + ("\n" + value + more);
      assert ("\n" + value + more)[0] == '\n';
    }
  }

  /** The event that takes up pending fields begins with them. */
  lemma {:induction false} PendingEvent(fields: seq<string>, lines: seq<string>)
    requires fields != []
    ensures FirstGoesOn(Events(fields, lines), Join(fields, "\n"))
    decreases |lines|
  {
    if lines != [] {
      var line, rest := lines[0], lines[1..];
      assert lines == [line] + rest;
      if line == "" {
        BlankLineDispatches(fields, "", rest);
        assert Join(fields, "\n") + "" == Join(fields, "\n");
      } else {
        OtherLine(fields, "", line, rest);
        hide Events, StandardEvents, DataValue, Join, FirstGoesOn;
        if line != "data" && DATA <= line {
          PendingEvent(fields + [DataValue(line)], rest);
          JoinSnoc(fields, DataValue(line));
          GoesOnFurther(Events(fields + [DataValue(line)], rest), Join(fields, "\n"), DataValue(line));
        } else {
          PendingEvent(fields, rest);
        }
      }
    }
  }

  /** Read past the break, the stream shows the payloads before, and of the broken one at most a spoiled event. */
  lemma BrokenEvents(before: seq<string>, head: string, tail: string) returns (events: seq<string>)
    requires AllOnOneLine(Python, before) && OnOneLine(Python, head) && tail != "" && Ends(Python, tail[0])
    ensures Events([], SplitLines(Python, Stream(before) + (DataLine(head) + tail))) == before + events
    ensures FirstGoesOn(events, head)
  {
    var line := DataLine(head);
    var lines := SplitLines(Python, AfterBreak(tail));
    DataLineIsOneLine(Python, head);
    StreamLinesOnOneLine(Python, before);
    hide OnOneLine, AfterBreak, DataLine, Ends, SplitLines, Events;
    SplitFirstLine(Python, line, tail);
    SplitLinesOfBroken(Python, StreamLines(before), line + tail);
    EventsBehind(before, [line] + lines);
    DataLineRead(head, lines);
    events := Events([head], lines);
    PendingEvent([head], lines);
    assert Join([head], "\n") == head;
  }

  lemma UndecodableIsIncomplete(bodies: seq<string>, events: seq<string>, decode: string -> Option<Event>, text: string)
    requires DONE !in bodies && (ChoicesOf(bodies, decode).Some? ==> !EndsWithStop(ChoicesOf(bodies, decode).value))
    requires events == [] || decode(events[0]) == None
    ensures !CompleteAnswer(bodies + events, decode, text)
  {
    var all := bodies + events;
    if |events| >= 2 {
      var body := all[..|all| - 1];
      assert body[|bodies|] == events[0];
      NoChoices(body, |bodies|, decode);
    } else if |events| == 1 {
      assert all[..|all| - 1] == bodies;
    } else {
      assert all == bodies;
    }
    hide EndsWithStop, GoodChoices;
  }

  lemma {:induction false} NoChoices(events: seq<string>, at: nat, decode: string -> Option<Event>)
    requires at < |events| && decode(events[at]) == None
    ensures ChoicesOf(events, decode) == None
    decreases |events|
  {
    if at > 0 {
      NoChoices(events[1..], at - 1, decode);
    }
  }

  lemma NoStopYet(chunks: seq<string>, at: nat)
    requires at <= |chunks|
    ensures !EndsWithStop(AnswerChoices(chunks)[..at])
  {
  }

  /** The bodies before the broken one hold no [DONE] and no stop. */
  lemma BodiesBefore(chunks: seq<string>, at: nat, encode: Event -> string, decode: string -> Option<Event>)
    requires IsCodec(encode, decode) && at <= |chunks|
    ensures var before := Payloads(chunks, encode)[..at];
      && DONE !in before && ChoicesOf(before, decode).Some? && !EndsWithStop(ChoicesOf(before, decode).value)
      && before == Bodies(AnswerChoices(chunks)[..at], encode)
  {
    var some := AnswerChoices(chunks)[..at];
    assert Payloads(chunks, encode)[..at] == Bodies(some, encode);
    ChoicesOfBodies(some, encode, decode);
    NoStopYet(chunks, at);
  }

  lemma CutBeforeBreak(choices: seq<Choice>, head: string, encode: Event -> string, decode: string -> Option<Event>, cut: string)
    requires IsCodec(encode, decode) && AllOnOneLine(Python, Bodies(choices, encode)) && OnOneLine(Python, head)
    requires cut <= Stream(Bodies(choices, encode)) + DataLine(head)
    ensures Verdict(cut, decode).Rejected?
  {
    var bodies := Bodies(choices, encode);
    StreamOfConcat(bodies, [head]);
    StreamOfFirst([head]);
    assert [head][1..] == [] && Stream([]) == "";
    hide Stream, DataLine, Bodies, IsCodec, OnOneLine, Verdict;
    assert Stream(bodies + [head]) == Stream(bodies) + DataLine(head) + BLANK;
    CutIsRejected(choices, head, encode, decode, cut);
  }

  /** A prefix ends before some point, or goes on behind it. */
  lemma BeforeOrBehind(start: string, rest: string, cut: string) returns (behind: string)
    requires cut <= start + rest && rest != ""
    ensures cut <= start || (cut == start + behind && behind != "" && behind[0] == rest[0])
  {
    if |cut| <= |start| {
      behind := "";
      assert cut == (start + rest)[..|cut|] == start[..|cut|];
    } else {
      behind := cut[|start|..];
      assert cut[|start|] == (start + rest)[|start|];
      assert cut[..|start|] == (start + rest)[..|start|];
    }
  }

  /** A cut behind the break shows the spoiled event, or leaves it pending. */
  lemma CutBehindBreak(chunks: seq<string>, at: nat, head: string, tail: string, behind: string,
                       encode: Event -> string, decode: string -> Option<Event>)
    requires IsCodec(encode, decode) && BreaksSpoil(encode, decode) && at <= |chunks|
    requires Payloads(chunks, encode)[at] == head + tail && OnOneLine(Python, head) && tail != "" && Ends(Python, tail[0])
    requires AllOnOneLine(Python, Payloads(chunks, encode)[..at]) && behind != "" && behind[0] == tail[0]
    ensures Verdict(Stream(Payloads(chunks, encode)[..at]) + (DataLine(head) + behind), decode).Rejected?
  {
    var before := Payloads(chunks, encode)[..at];
    var cut := Stream(before) + (DataLine(head) + behind);
    BodiesBefore(chunks, at, encode, decode);
    var events := BrokenEvents(before, head, behind);
    SpoiledPayload(AnswerChoices(chunks)[at], head, tail, encode, decode, events);
    hide *;
    forall text: string ensures !CompleteAnswer(Events([], SplitLines(Python, cut)), decode, text) {
      UndecodableIsIncomplete(before, events, decode, text);
    }
    NotAccepted(cut, decode);
  }

  lemma BrokenIsBody(chunks: seq<string>, encode: Event -> string, at: nat)
    requires at < |Payloads(chunks, encode)| && !OnOneLine(Python, Payloads(chunks, encode)[at])
    ensures at <= |chunks|
  {
    assert OnOneLine(Python, DONE);
  }

  /** Of a stream with a broken payload no prefix is accepted, nor the whole. */
  lemma BrokenPayloadIsRejected(chunks: seq<string>, encode: Event -> string, decode: string -> Option<Event>, cut: string)
    requires IsCodec(encode, decode) && BreaksSpoil(encode, decode)
    requires !AllOnOneLine(Python, Payloads(chunks, encode)) && cut <= Encode(chunks, encode)
    ensures Verdict(cut, decode).Rejected?
  {
    var payloads := Payloads(chunks, encode);
    assert Encode(chunks, encode) == Stream(payloads);
    hide Payloads, Stream, IsCodec, BreaksSpoil, AllOnOneLine, Verdict, Encode;
    var at, head, tail := FirstBroken(payloads);
    assert (head + tail)[|head|] == tail[0];
    BrokenIsBody(chunks, encode, at);
    hide OnOneLine, Ends;
    BrokenAtIsRejected(chunks, at, head, tail, encode, decode, cut);
  }

  lemma BrokenAtIsRejected(chunks: seq<string>, at: nat, head: string, tail: string,
                           encode: Event -> string, decode: string -> Option<Event>, cut: string)
    requires IsCodec(encode, decode) && BreaksSpoil(encode, decode) && at <= |chunks|
    requires Payloads(chunks, encode)[at] == head + tail && OnOneLine(Python, head) && tail != "" && Ends(Python, tail[0])
    requires AllOnOneLine(Python, Payloads(chunks, encode)[..at]) && cut <= Stream(Payloads(chunks, encode))
    ensures Verdict(cut, decode).Rejected?
  {
    var payloads := Payloads(chunks, encode);
    BodiesBefore(chunks, at, encode, decode);
    var before := payloads[..at];
    hide *;
    var rest := BrokenStream(payloads, at, head, tail);
    assert (tail + rest)[0] == tail[0];
    var behind := BeforeOrBehind(Stream(before) + DataLine(head), tail + rest, cut);
    if cut <= Stream(before) + DataLine(head) {
      CutBeforeBreak(AnswerChoices(chunks)[..at], head, encode, decode, cut);
    } else {
      CutBehindBreak(chunks, at, head, tail, behind, encode, decode);
      Reassociate(Stream(before), DataLine(head), behind);
    }
  }

  lemma Reassociate(a: string, b: string, c: string)
    ensures a + (b + c) == a + b + c
  {
  }

  lemma SpoiledPayload(choice: Choice, head: string, tail: string, encode: Event -> string, decode: string -> Option<Event>, events: seq<string>)
    requires BreaksSpoil(encode, decode) && encode(EventOf(choice)) == head + tail && tail != "" && Ends(Python, tail[0])
    requires FirstGoesOn(events, head)
    ensures events == [] || decode(events[0]) == None
  {
    if events != [] {
      var e := EventOf(choice);
      var more: string :| (more == "" || more[0] == '\n') && events[0] == head + more;
      assert encode(e)[..|head|] == head && encode(e)[|head|] == tail[0];
      assert IsSpoiled(encode, decode, e, |head|, more);
    }
  }

  /** The stream up to the first break, and what follows. */
  lemma BrokenStream(payloads: seq<string>, at: nat, head: string, tail: string) returns (rest: string)
    requires at < |payloads| && payloads[at] == head + tail
    ensures Stream(payloads) == Stream(payloads[..at]) + DataLine(head) + (tail + rest)
  {
    assert payloads == payloads[..at] + payloads[at..];
    StreamOfConcat(payloads[..at], payloads[at..]);
    StreamOfFirst(payloads[at..]);
    rest := BLANK + Stream(payloads[at..][1..]);
    assert DataLine(head + tail) == DataLine(head) + tail;
    hide Stream, DataLine;
    var s, d := Stream(payloads[..at]), DataLine(head);
    assert s + (d + tail + BLANK + Stream(payloads[at..][1..])) == s + d + (tail + rest);
  }

  // ── The main results ──────────────────────────────────────────────────────

  /**
   Main result: with a codec whose encodings do not survive being broken, an encoded stream is read
   back with its text if and only if every payload is on one line; otherwise it is rejected.
   */
  lemma DecodesEncodedExactly(chunks: seq<string>, encode: Event -> string, decode: string -> Option<Event>)
    requires IsCodec(encode, decode) && BreaksSpoil(encode, decode)
    ensures Verdict(Encode(chunks, encode), decode) == Ok(Concat(chunks)) <==> AllOnOneLine(Python, Payloads(chunks, encode))
    ensures !AllOnOneLine(Python, Payloads(chunks, encode)) ==> Verdict(Encode(chunks, encode), decode).Rejected?
  {
    hide *;
    if AllOnOneLine(Python, Payloads(chunks, encode)) {
      DecodesEncoded(chunks, encode, decode);
    } else {
      BrokenPayloadIsRejected(chunks, encode, decode, Encode(chunks, encode));
    }
  }

  /** No proper prefix of an encoded stream is accepted, wherever it is cut. */
  lemma TruncationIsRejected(chunks: seq<string>, encode: Event -> string, decode: string -> Option<Event>, cut: string)
    requires IsCodec(encode, decode) && (AllOnOneLine(Python, Payloads(chunks, encode)) || BreaksSpoil(encode, decode))
    requires cut <= Encode(chunks, encode) && cut != Encode(chunks, encode)
    ensures Verdict(cut, decode).Rejected?
  {
    if AllOnOneLine(Python, Payloads(chunks, encode)) {
      hide IsCodec, AllOnOneLine, Bodies, AnswerChoices, Stream, Verdict, BreaksSpoil;
      CutIsRejected(AnswerChoices(chunks), DONE, encode, decode, cut);
    } else {
      hide *;
      BrokenPayloadIsRejected(chunks, encode, decode, cut);
    }
  }

  // ── The encoder of the answer route ───────────────────────────────────────

  function HexDigit(n: nat): char
    requires n < 16
  {
    "0123456789abcdef"[n]
  }

  /** One character of a string as JSON.stringify writes it. */
  function Escaped(c: char): string {
    if c == '"' then "\\\""
    else if c == '\\' then "\\\\"
    else if c == '\n' then "\\n"
    else if c == '\r' then "\\r"
    else if c == '\t' then "\\t"
    else if c == '\U{8}' then "\\b"
    else if c == '\U{C}' then "\\f"
    else if c < ' ' then "\\u00" + [HexDigit(c as nat / 16), HexDigit(c as nat % 16)]
    else [c]
  }

  function Quoted(s: string): string {
    if s == "" then "" else Escaped(s[0]) + Quoted(s[1..])
  }

  function OpenChoice(): string { "{\"choices\":[{\"index\":0," }
  function OpenDelta(): string { "\"delta\":{" }
  function OpenContent(): string { "\"content\":\"" }
  function CloseContent(): string { "\"" }
  function Reason(): string { "},\"finish_reason\":" }
  function CloseChoice(): string { "}]}" }

  function ChunkText(text: string): string {
    OpenChoice() + OpenDelta() + OpenContent() + Quoted(text) + CloseContent() + Reason() + "null" + CloseChoice()
  }

  function StopText(): string {
    OpenChoice() + OpenDelta() + Reason() + "\"stop\"" + CloseChoice()
  }

  /** The encoder writes chunks and the stop as the answer route does. */
  ghost predicate IsAnswerRoute(encode: Event -> string) {
    && (forall text :: encode(EventOf(ChunkChoice(text))) == ChunkText(text))
    && encode(EventOf(STOP_CHOICE)) == StopText()
  }

  /** The breaks that JSON.stringify leaves as they are. */
  predicate IsRawBreak(c: char) {
    c == '\U{85}' || c == '\U{2028}' || c == '\U{2029}'
  }

  ghost predicate HasRawBreak(s: string) {
    exists i :: 0 <= i < |s| && IsRawBreak(s[i])
  }

  lemma EscapedOnOneLine(c: char)
    ensures OnOneLine(Python, Escaped(c)) <==> !IsRawBreak(c)
    ensures OnOneLine(Standard, Escaped(c))
  {
    if c < ' ' {
      var hi, lo := HexDigit(c as nat / 16), HexDigit(c as nat % 16);
      assert '0' <= hi <= 'f' && '0' <= lo <= 'f';
    } else if c != '"' && c != '\\' {
      assert Escaped(c)[0] == c;
    }
  }

  lemma ConcatOnOneLine(r: Reader, a: string, b: string)
    ensures OnOneLine(r, a + b) <==> OnOneLine(r, a) && OnOneLine(r, b)
  {
    assert forall i :: 0 <= i < |a| ==> a[i] == (a + b)[i];
    assert forall i :: 0 <= i < |b| ==> b[i] == (a + b)[|a| + i];
  }

  lemma {:induction false} QuotedOnOneLine(s: string)
    ensures OnOneLine(Python, Quoted(s)) <==> !HasRawBreak(s)
    ensures OnOneLine(Standard, Quoted(s))
  {
    if s != "" {
      QuotedOnOneLine(s[1..]);
      EscapedOnOneLine(s[0]);
      ConcatOnOneLine(Python, Escaped(s[0]), Quoted(s[1..]));
      ConcatOnOneLine(Standard, Escaped(s[0]), Quoted(s[1..]));
      hide OnOneLine, Escaped, IsRawBreak;
      assert forall i :: 0 <= i < |s[1..]| ==> s[1..][i] == s[i + 1];
      if HasRawBreak(s[1..]) {
        var i :| 0 <= i < |s[1..]| && IsRawBreak(s[1..][i]);
        assert IsRawBreak(s[i + 1]);
      }
      if HasRawBreak(s) && !IsRawBreak(s[0]) {
        var i :| 0 <= i < |s| && IsRawBreak(s[i]);
        assert IsRawBreak(s[1..][i - 1]);
      }
    }
  }

  lemma OpenChoiceOnOneLine()
    ensures OnOneLine(Python, OpenChoice())
  {
  }

  lemma ReasonOnOneLine()
    ensures OnOneLine(Python, Reason())
  {
  }

  lemma ShortTextsOnOneLine()
    ensures OnOneLine(Python, OpenDelta()) && OnOneLine(Python, OpenContent()) && OnOneLine(Python, CloseContent())
    ensures OnOneLine(Python, CloseChoice()) && OnOneLine(Python, "null") && OnOneLine(Python, "\"stop\"") && OnOneLine(Python, DONE)
  {
  }

  lemma StopOnOneLine()
    ensures OnOneLine(Python, StopText()) && OnOneLine(Python, DONE)
    ensures OnOneLine(Standard, StopText()) && OnOneLine(Standard, DONE)
  {
    OpenChoiceOnOneLine();
    ReasonOnOneLine();
    ShortTextsOnOneLine();
    hide OnOneLine, OpenChoice, OpenDelta, Reason, CloseChoice;
    ConcatOnOneLine(Python, OpenChoice(), OpenDelta());
    ConcatOnOneLine(Python, OpenChoice() + OpenDelta(), Reason());
    ConcatOnOneLine(Python, OpenChoice() + OpenDelta() + Reason(), "\"stop\"");
    ConcatOnOneLine(Python, OpenChoice() + OpenDelta() + Reason() + "\"stop\"", CloseChoice());
    assert OnOneLine(Python, StopText());
    PythonIsStricter(StopText());
    PythonIsStricter(DONE);
  }

  /** A text between fixed texts is on one line exactly if the text is. */
  lemma BetweenOnOneLine(r: Reader, a: string, b: string, c: string, text: string, d: string, e: string, f: string, g: string)
    requires OnOneLine(r, a) && OnOneLine(r, b) && OnOneLine(r, c) && OnOneLine(r, d) && OnOneLine(r, e) && OnOneLine(r, f) && OnOneLine(r, g)
    ensures OnOneLine(r, a + b + c + text + d + e + f + g) <==> OnOneLine(r, text)
  {
    hide OnOneLine;
    ConcatOnOneLine(r, a, b);
    ConcatOnOneLine(r, a + b, c);
    ConcatOnOneLine(r, a + b + c, text);
    ConcatOnOneLine(r, a + b + c + text, d);
    ConcatOnOneLine(r, a + b + c + text + d, e);
    ConcatOnOneLine(r, a + b + c + text + d + e, f);
    ConcatOnOneLine(r, a + b + c + text + d + e + f, g);
  }

  lemma ChunkOnOneLine(text: string)
    ensures OnOneLine(Python, ChunkText(text)) <==> !HasRawBreak(text)
    ensures OnOneLine(Standard, ChunkText(text))
  {
    QuotedOnOneLine(text);
    OpenChoiceOnOneLine();
    ReasonOnOneLine();
    ShortTextsOnOneLine();
    hide OnOneLine, OpenChoice, OpenDelta, OpenContent, CloseContent, Reason, CloseChoice, Quoted, HasRawBreak;
    PythonIsStricter(OpenChoice());
    PythonIsStricter(OpenDelta());
    PythonIsStricter(OpenContent());
    PythonIsStricter(CloseContent());
    PythonIsStricter(Reason());
    PythonIsStricter("null");
    PythonIsStricter(CloseChoice());
    BetweenOnOneLine(Python, OpenChoice(), OpenDelta(), OpenContent(), Quoted(text), CloseContent(), Reason(), "null", CloseChoice());
    BetweenOnOneLine(Standard, OpenChoice(), OpenDelta(), OpenContent(), Quoted(text), CloseContent(), Reason(), "null", CloseChoice());
  }

  ghost predicate NoRawBreak(chunks: seq<string>) {
    forall i :: 0 <= i < |chunks| ==> !HasRawBreak(chunks[i])
  }

  lemma RoutePayload(chunks: seq<string>, encode: Event -> string, i: nat)
    requires IsAnswerRoute(encode) && i < |Payloads(chunks, encode)|
    ensures OnOneLine(Standard, Payloads(chunks, encode)[i])
    ensures OnOneLine(Python, Payloads(chunks, encode)[i]) <==> (i < |chunks| ==> !HasRawBreak(chunks[i]))
  {
    StopOnOneLine();
    hide OnOneLine, ChunkText, StopText, HasRawBreak;
    if i < |chunks| {
      assert Payloads(chunks, encode)[i] == encode(EventOf(ChunkChoice(chunks[i])));
      ChunkOnOneLine(chunks[i]);
    } else if i == |chunks| {
      assert Payloads(chunks, encode)[i] == encode(EventOf(STOP_CHOICE));
    } else {
      assert Payloads(chunks, encode)[i] == DONE;
    }
  }

  lemma RoutePayloads(chunks: seq<string>, encode: Event -> string)
    requires IsAnswerRoute(encode)
    ensures AllOnOneLine(Python, Payloads(chunks, encode)) <==> NoRawBreak(chunks)
    ensures AllOnOneLine(Standard, Payloads(chunks, encode))
  {
    assert |Payloads(chunks, encode)| == |chunks| + 2;
    hide IsAnswerRoute, OnOneLine, Payloads, HasRawBreak;
    forall i | 0 <= i < |chunks| + 2
      ensures OnOneLine(Standard, Payloads(chunks, encode)[i])
      ensures OnOneLine(Python, Payloads(chunks, encode)[i]) <==> (i < |chunks| ==> !HasRawBreak(chunks[i]))
    {
      RoutePayload(chunks, encode, i);
    }
  }

  /** Main result for the answer route: its stream is read back with its text if and only if no chunk holds U+0085, U+2028 or U+2029. */
  lemma AnswerRouteExactly(chunks: seq<string>, encode: Event -> string, decode: string -> Option<Event>)
    requires IsCodec(encode, decode) && BreaksSpoil(encode, decode) && IsAnswerRoute(encode)
    ensures Verdict(Encode(chunks, encode), decode) == Ok(Concat(chunks)) <==> NoRawBreak(chunks)
    ensures !NoRawBreak(chunks) ==> Verdict(Encode(chunks, encode), decode).Rejected?
  {
    hide *;
    RoutePayloads(chunks, encode);
    DecodesEncodedExactly(chunks, encode, decode);
  }

  lemma {:induction false} NoBareLine(payloads: seq<string>)
    ensures BareLines(StreamLines(payloads)) == 0
    decreases |payloads|
  {
    if payloads != [] {
      var lines := StreamLines(payloads);
      NoBareLine(payloads[1..]);
      DataLineFacts(payloads[0]);
      assert lines[1..] == [""] + StreamLines(payloads[1..]) && lines[1..][1..] == StreamLines(payloads[1..]);
      hide DataLine, StreamLines;
      assert BareLines(lines[1..]) == BareLines(lines[1..][1..]);
    }
  }

  lemma StreamIsUnmarked(payloads: seq<string>)
    ensures !IsMarked(Stream(payloads))
  {
    if payloads != [] {
      StreamOfFirst(payloads);
      DataLineFacts(payloads[0]);
      hide Stream, DataLine;
      var text := DataLine(payloads[0]) + BLANK + Stream(payloads[1..]);
      assert text[0] == DataLine(payloads[0])[0];
    }
  }

  /** To the standard the answer route's stream is always a complete answer, whatever the chunks hold. */
  lemma StandardReadsAnswerRoute(chunks: seq<string>, encode: Event -> string, decode: string -> Option<Event>)
    requires IsCodec(encode, decode) && IsAnswerRoute(encode)
    ensures StandardReading(Encode(chunks, encode)) == Payloads(chunks, encode)
    ensures CompleteAnswer(StandardReading(Encode(chunks, encode)), decode, Concat(chunks))
  {
    var payloads := Payloads(chunks, encode);
    PayloadsAreComplete(chunks, encode, decode);
    RoutePayloads(chunks, encode);
    StreamReads(Standard, payloads);
    StreamIsUnmarked(payloads);
    NoBareLine(payloads);
    SameEvents([], "", StreamLines(payloads));
    hide SplitLines, Events, StandardEvents, Stream, StreamLines, Payloads, CompleteAnswer;
  }

  /** A complete answer that holds a line separator is rejected. */
  lemma LineSeparatorIsRejected(encode: Event -> string, decode: string -> Option<Event>)
    requires IsCodec(encode, decode) && BreaksSpoil(encode, decode) && IsAnswerRoute(encode)
    ensures var raw := Encode(["\U{2028}"], encode);
      Verdict(raw, decode).Rejected? && CompleteAnswer(StandardReading(raw), decode, Concat(["\U{2028}"]))
  {
    var chunks := ["\U{2028}"];
    assert IsRawBreak(chunks[0][0]);
    hide IsRawBreak, IsCodec, BreaksSpoil, IsAnswerRoute, Encode, Concat, CompleteAnswer, Verdict;
    AnswerRouteExactly(chunks, encode, decode);
    StandardReadsAnswerRoute(chunks, encode, decode);
  }
}
