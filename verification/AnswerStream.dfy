/**
 The answer-stream parser (experiments/answer-quality/run.py, parse_answer_stream).

 The method below reads the stream line by line.  It is proved equal to a fold over the stream's
 data events, and from that comes an exact description of the accepted streams.
 */
module AnswerStream {
  import opened EventLines
  import opened Options
  import opened Splitting

  // ── What the JSON of one event says, as far as the parser looks ───────────

  /** A value that is absent or null, a text, or something else. */
  datatype Field = Absent | Text(text: string) | Other

  datatype Choice = Malformed | Choice(indexIsZero: bool, content: Field, finish: Field)

  /** `choices` is None when it is missing or not a list. */
  datatype Event = Event(hasError: bool, choices: Option<seq<Choice>>)

  datatype Reason =
    | DataAfterDone | MissingStop | NotJson | StreamError | MissingChoices
    | UnexpectedChoice | InvalidContent | IncompleteGeneration | IncompleteStream

  datatype Outcome<T> = Ok(value: T) | Rejected(reason: Reason)

  const DONE := "[DONE]"

  // ── The parser as a fold over lines ───────────────────────────────────────

  /** What the parser has collected: the answer text, and whether stop and [DONE] were seen. */
  datatype Progress = Progress(text: string, stopped: bool, done: bool)

  const START := Progress("", false, false)

  function TakeChoice(p: Progress, choice: Choice): Outcome<Progress> {
    if choice.Malformed? || p.stopped || !choice.indexIsZero then Rejected(UnexpectedChoice)
    else if choice.content.Other? then Rejected(InvalidContent)
    else
      var text := if choice.content.Text? then p.text + choice.content.text else p.text;
      if choice.finish.Absent? then Ok(p.(text := text))
      else if choice.finish == Text("stop") then Ok(p.(text := text, stopped := true))
      else Rejected(IncompleteGeneration)
  }

  function TakeChoices(p: Progress, choices: seq<Choice>): Outcome<Progress>
    decreases |choices|
  {
    if choices == [] then Ok(p)
    else
      var taken := TakeChoice(p, choices[0]);
      if taken.Rejected? then taken else TakeChoices(taken.value, choices[1..])
  }

  /** One dispatched event. */
  function TakeEvent(p: Progress, data: string, decode: string -> Option<Event>): Outcome<Progress> {
    if p.done then Rejected(DataAfterDone)
    else if data == DONE then
      if p.stopped then Ok(p.(done := true)) else Rejected(MissingStop)
    else
      match decode(data)
      case None => Rejected(NotJson)
      case Some(event) =>
        if event.hasError then Rejected(StreamError)
        else if event.choices.None? then Rejected(MissingChoices)
        else TakeChoices(p, event.choices.value)
  }

  function TakeEvents(p: Progress, events: seq<string>, decode: string -> Option<Event>): Outcome<Progress>
    decreases |events|
  {
    if events == [] then Ok(p)
    else
      var taken := TakeEvent(p, events[0], decode);
      if taken.Rejected? then taken else TakeEvents(taken.value, events[1..], decode)
  }

  /** The parser's verdict, said without its loop: fold over the events, then the final check. */
  function Verdict(raw: string, decode: string -> Option<Event>): Outcome<string> {
    var lines := SplitLines(Python, raw);
    match TakeEvents(START, Events([], lines), decode)
    case Rejected(reason) => Rejected(reason)
    case Ok(p) => if Leftover([], lines) != [] || !p.done then Rejected(IncompleteStream) else Ok(p.text)
  }

  // ── The parser as it runs ─────────────────────────────────────────────────

  method TakeChoicesInPlace(p: Progress, choices: seq<Choice>) returns (r: Outcome<Progress>)
    ensures r == TakeChoices(p, choices)
  {
    var text, stopped := p.text, p.stopped;
    var i := 0;
    while i < |choices|
      invariant 0 <= i <= |choices|
      invariant TakeChoices(p, choices) == TakeChoices(Progress(text, stopped, p.done), choices[i..])
    {
      var choice := choices[i];
      assert choices[i..][1..] == choices[i + 1..];
      if choice.Malformed? || stopped || !choice.indexIsZero {
        return Rejected(UnexpectedChoice);
      }
      if choice.content.Other? {
        return Rejected(InvalidContent);
      }
      if choice.content.Text? {
        text := text + choice.content.text;
      }
      if !choice.finish.Absent? {
        if choice.finish != Text("stop") {
          return Rejected(IncompleteGeneration);
        }
        stopped := true;
      }
      i := i + 1;
    }
    r := Ok(Progress(text, stopped, p.done));
  }

  lemma NextLine(fields: seq<string>, lines: seq<string>, i: nat)
    requires i < |lines|
    ensures var (fields', event) := FrameLine(fields, lines[i]);
            && Leftover(fields, lines[i..]) == Leftover(fields', lines[i + 1..])
            && Events(fields, lines[i..]) ==
               if event.Some? then [event.value] + Events(fields', lines[i + 1..]) else Events(fields', lines[i + 1..])
  {
    assert lines[i..][1..] == lines[i + 1..];
  }

  lemma NextEvent(p: Progress, data: string, events: seq<string>, decode: string -> Option<Event>)
    ensures TakeEvents(p, [data] + events, decode) ==
            var taken := TakeEvent(p, data, decode);
            if taken.Rejected? then taken else TakeEvents(taken.value, events, decode)
  {
    assert ([data] + events)[1..] == events;
  }

  method ParseAnswerStream(raw: string, decode: string -> Option<Event>) returns (r: Outcome<string>)
    ensures r == Verdict(raw, decode)
  {
    var lines := SplitLines(Python, raw);
    hide SplitLines, Events, Leftover, TakeEvents, TakeChoices, Join;
    var p := START;
    var fields: seq<string> := [];
    var i := 0;
    assert lines[0..] == lines;
    while i < |lines|
      invariant 0 <= i <= |lines|
      invariant TakeEvents(START, Events([], lines), decode) == TakeEvents(p, Events(fields, lines[i..]), decode)
      invariant Leftover([], lines) == Leftover(fields, lines[i..])
    {
      var line := lines[i];
      NextLine(fields, lines, i);
      i := i + 1;
      if line != "" {
        if DATA <= line {
          fields := fields + [DataValue(line)];
        }
        continue;
      }
      if fields == [] {
        continue;
      }
      var data := Join(fields, "\n");
      fields := [];
      NextEvent(p, data, Events([], lines[i..]), decode);
      if p.done {
        return Rejected(DataAfterDone);
      }
      if data == DONE {
        if !p.stopped {
          return Rejected(MissingStop);
        }
        p := p.(done := true);
        continue;
      }
      var event := decode(data);
      if event.None? {
        return Rejected(NotJson);
      }
      if event.value.hasError {
        return Rejected(StreamError);
      }
      if event.value.choices.None? {
        return Rejected(MissingChoices);
      }
      var taken := TakeChoicesInPlace(p, event.value.choices.value);
      if taken.Rejected? {
        return Rejected(taken.reason);
      }
      p := taken.value;
    }
    AtTheEnd(fields, lines[i..], p, decode);
    if fields != [] || !p.done {
      return Rejected(IncompleteStream);
    }
    r := Ok(p.text);
  }

  lemma AtTheEnd(fields: seq<string>, lines: seq<string>, p: Progress, decode: string -> Option<Event>)
    requires lines == []
    ensures Events(fields, lines) == [] && Leftover(fields, lines) == fields
    ensures TakeEvents(p, Events(fields, lines), decode) == Ok(p)
  {
  }

  // ── Exactly which streams are accepted ────────────────────────────────────

  /** The choices of some events in order; None if an event is no JSON, reports an error or has no choice list. */
  function ChoicesOf(events: seq<string>, decode: string -> Option<Event>): Option<seq<Choice>>
    decreases |events|
  {
    if events == [] then Some([])
    else
      var event, rest := decode(events[0]), ChoicesOf(events[1..], decode);
      if event.None? || event.value.hasError || event.value.choices.None? || rest.None? then None
      else Some(event.value.choices.value + rest.value)
  }

  function TextOf(choices: seq<Choice>): string
    decreases |choices|
  {
    if choices == [] then ""
    else (if choices[0].Choice? && choices[0].content.Text? then choices[0].content.text else "") + TextOf(choices[1..])
  }

  /** A choice of index 0 that carries text or nothing. */
  predicate Readable(choice: Choice) {
    choice.Choice? && choice.indexIsZero && !choice.content.Other?
  }

  /** Readable choices of which only the last one may, and then with "stop", name a reason to finish. */
  ghost predicate GoodChoices(choices: seq<Choice>) {
    forall i :: 0 <= i < |choices| ==>
      && Readable(choices[i])
      && (choices[i].finish.Absent? || (i == |choices| - 1 && choices[i].finish == Text("stop")))
  }

  predicate EndsWithStop(choices: seq<Choice>) {
    choices != [] && choices[|choices| - 1].Choice? && choices[|choices| - 1].finish == Text("stop")
  }

  /** A complete answer: events with good choices ending in exactly one stop, then [DONE], then nothing. */
  ghost predicate CompleteAnswer(events: seq<string>, decode: string -> Option<Event>, text: string) {
    && events != [] && events[|events| - 1] == DONE
    && var body := events[..|events| - 1];
       && DONE !in body
       && ChoicesOf(body, decode).Some?
       && var choices := ChoicesOf(body, decode).value;
          GoodChoices(choices) && EndsWithStop(choices) && text == TextOf(choices)
  }

  lemma {:induction false} TakeChoicesExactly(p: Progress, choices: seq<Choice>)
    ensures var taken := TakeChoices(p, choices);
            && (p.stopped ==> (taken.Ok? <==> choices == []))
            && (!p.stopped ==> (taken.Ok? <==> GoodChoices(choices)))
            && (taken.Ok? ==>
                  taken.value == Progress(p.text + TextOf(choices), p.stopped || EndsWithStop(choices), p.done))
    decreases |choices|
  {
    if choices == [] {
      assert p.text + "" == p.text;
    } else if !p.stopped {
      var taken, rest := TakeChoice(p, choices[0]), choices[1..];
      GoodChoicesUnfold(choices);
      hide GoodChoices;
      if taken.Ok? {
        TakeChoicesExactly(taken.value, rest);
        var first := if choices[0].content.Text? then choices[0].content.text else "";
        assert p.text + (first + TextOf(rest)) == taken.value.text + TextOf(rest);
      }
    }
  }

  lemma GoodChoicesUnfold(choices: seq<Choice>)
    requires choices != []
    ensures GoodChoices([])
    ensures GoodChoices(choices) <==>
              && Readable(choices[0])
              && if choices[0].finish.Absent? then GoodChoices(choices[1..])
                 else choices[0].finish == Text("stop") && choices[1..] == []
    ensures |choices| > 1 ==> EndsWithStop(choices) == EndsWithStop(choices[1..])
  {
    var rest := choices[1..];
    if GoodChoices(choices) {
      forall i | 0 <= i < |rest|
        ensures Readable(rest[i]) && (rest[i].finish.Absent? || (i == |rest| - 1 && rest[i].finish == Text("stop")))
      {
        assert rest[i] == choices[i + 1];
      }
    }
    if Readable(choices[0]) && choices[0].finish.Absent? && GoodChoices(rest) {
      forall i | 0 <= i < |choices|
        ensures Readable(choices[i])
        ensures choices[i].finish.Absent? || (i == |choices| - 1 && choices[i].finish == Text("stop"))
      {
        if i > 0 {
          assert rest[i - 1] == choices[i];
        }
      }
    }
  }

  lemma {:induction false} TakeChoicesConcat(p: Progress, a: seq<Choice>, b: seq<Choice>)
    ensures var taken := TakeChoices(p, a);
            TakeChoices(p, a + b) == if taken.Rejected? then taken else TakeChoices(taken.value, b)
    decreases |a|
  {
    if a == [] {
      assert a + b == b;
    } else {
      assert (a + b)[1..] == a[1..] + b;
      var taken := TakeChoice(p, a[0]);
      if taken.Ok? {
        TakeChoicesConcat(taken.value, a[1..], b);
      }
    }
  }

  /** Before [DONE], taking events is taking their choices. */
  lemma {:induction false} TakeBody(p: Progress, body: seq<string>, decode: string -> Option<Event>)
    requires !p.done && DONE !in body
    ensures var choices := ChoicesOf(body, decode);
            var taken := TakeEvents(p, body, decode);
            && (choices.None? ==> taken.Rejected?)
            && (choices.Some? ==> (taken.Ok? <==> TakeChoices(p, choices.value).Ok?))
            && (choices.Some? && taken.Ok? ==> taken == TakeChoices(p, choices.value))
            && (taken.Ok? ==> !taken.value.done)
    decreases |body|
  {
    if body != [] {
      var event, rest := decode(body[0]), ChoicesOf(body[1..], decode);
      assert DONE !in body[1..] && body[0] != DONE;
      var taken := TakeEvent(p, body[0], decode);
      if taken.Ok? {
        TakeChoicesExactly(p, event.value.choices.value);
        TakeBody(taken.value, body[1..], decode);
      }
      if ChoicesOf(body, decode).Some? {
        TakeChoicesConcat(p, event.value.choices.value, rest.value);
      }
    }
  }

  lemma {:induction false} TakeEventsConcat(p: Progress, a: seq<string>, b: seq<string>, decode: string -> Option<Event>)
    ensures var taken := TakeEvents(p, a, decode);
            TakeEvents(p, a + b, decode) == if taken.Rejected? then taken else TakeEvents(taken.value, b, decode)
    decreases |a|
  {
    if a == [] {
      assert a + b == b;
    } else {
      assert (a + b)[1..] == a[1..] + b;
      var taken := TakeEvent(p, a[0], decode);
      if taken.Ok? {
        TakeEventsConcat(taken.value, a[1..], b, decode);
      }
    }
  }

  /** The first [DONE] must follow a stop and be the last event. */
  lemma TakeThroughDone(body: seq<string>, rest: seq<string>, decode: string -> Option<Event>)
    requires DONE !in body
    ensures var taken, before := TakeEvents(START, body + [DONE] + rest, decode), TakeEvents(START, body, decode);
            && (taken.Ok? <==> before.Ok? && before.value.stopped && rest == [])
            && (taken.Ok? ==> taken.value == before.value.(done := true))
  {
    TakeEventsConcat(START, body + [DONE], rest, decode);
    TakeEventsConcat(START, body, [DONE], decode);
    TakeBody(START, body, decode);
    var before := TakeEvents(START, body, decode);
    if before.Ok? {
      assert TakeEvents(before.value, [DONE], decode) ==
             if before.value.stopped then Ok(before.value.(done := true)) else Rejected(MissingStop);
    }
  }

  lemma FirstDone(events: seq<string>) returns (body: seq<string>, rest: seq<string>)
    requires DONE in events
    ensures events == body + [DONE] + rest && DONE !in body
  {
    var k := 0;
    while events[k] != DONE
      invariant 0 <= k < |events| && DONE !in events[..k] && DONE in events[k..]
      decreases |events| - k
    {
      assert events[k..] == [events[k]] + events[k + 1..];
      k := k + 1;
    }
    body, rest := events[..k], events[k + 1..];
  }

  /** The fold over the events ends well exactly on a complete answer. */
  lemma EventsExactly(events: seq<string>, decode: string -> Option<Event>, text: string)
    ensures var taken := TakeEvents(START, events, decode);
            (taken.Ok? && taken.value.done && taken.value.text == text) <==> CompleteAnswer(events, decode, text)
  {
    if DONE in events {
      var body, rest := FirstDone(events);
      TakeThroughDone(body, rest, decode);
      TakeBody(START, body, decode);
      if rest == [] {
        assert events[..|events| - 1] == body;
        if ChoicesOf(body, decode).Some? {
          TakeChoicesExactly(START, ChoicesOf(body, decode).value);
          assert "" + TextOf(ChoicesOf(body, decode).value) == TextOf(ChoicesOf(body, decode).value);
        }
      } else {
        assert events[|body|] == DONE;
        assert |body| < |events| - 1 ==> events[..|events| - 1][|body|] == DONE;
      }
    } else {
      TakeBody(START, events, decode);
    }
  }

  /** Main result: the parser returns `text` if and only if the stream is a complete answer with that text. */
  lemma AcceptedExactly(raw: string, decode: string -> Option<Event>, text: string)
    ensures Verdict(raw, decode) == Ok(text) <==>
            Leftover([], SplitLines(Python, raw)) == [] && CompleteAnswer(Events([], SplitLines(Python, raw)), decode, text)
  {
    EventsExactly(Events([], SplitLines(Python, raw)), decode, text);
  }
}
