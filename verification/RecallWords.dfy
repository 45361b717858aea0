/**
 What the recall block keeps of a memory (integrations/agent-hooks-core/core.js, cleanSnippet and
 frameOutput): its words, one space apart, and which line says what of which memory.
 */
module RecallWords {
  import opened Decimals
  import opened JsText
  import opened RecallFrame
  import opened Splitting

  // ── Cleaning keeps the words ──────────────────────────────────────────────

  /** Length of the run of characters before the first whitespace. */
  function WordRun(s: string): (n: nat)
    ensures n <= |s|
    ensures forall i :: 0 <= i < n ==> !IsSpace(s[i])
    ensures n < |s| ==> IsSpace(s[n])
  {
    if s == "" || IsSpace(s[0]) then 0 else 1 + WordRun(s[1..])
  }

  /** The maximal runs of other characters between whitespace. */
  function Words(s: string): seq<string>
    decreases |s|
  {
    if s == "" then []
    else if IsSpace(s[0]) then Words(s[1..])
    else [s[..WordRun(s)]] + Words(s[WordRun(s)..])
  }

  lemma {:induction false} DroppingKeepsWords(s: string)
    ensures Words(DropSpaces(s)) == Words(s)
  {
    if s != "" && IsSpace(s[0]) {
      DroppingKeepsWords(s[1..]);
    }
  }

  lemma {:induction false} CollapseOfWord(word: string, rest: string)
    requires forall i :: 0 <= i < |word| ==> !IsSpace(word[i])
    ensures CollapseSpaces(word + rest) == word + CollapseSpaces(rest)
  {
    if word == "" {
      assert word + rest == rest;
    } else {
      assert (word + rest)[1..] == word[1..] + rest;
      CollapseOfWord(word[1..], rest);
      assert word == [word[0]] + word[1..];
    }
  }

  ghost predicate EndsInSpace(s: string) {
    s != "" && IsSpace(s[|s| - 1])
  }

  lemma {:induction false} DroppingKeepsEnd(s: string)
    ensures DropSpaces(s) != "" ==> (EndsInSpace(DropSpaces(s)) <==> EndsInSpace(s))
    ensures DropSpaces(s) == "" && s != "" ==> EndsInSpace(s)
  {
    if s != "" && IsSpace(s[0]) {
      DroppingKeepsEnd(s[1..]);
    }
  }

  lemma WordsAreFirstAndRest(s: string)
    requires s != "" && !IsSpace(s[0])
    ensures WordRun(s) > 0 && Words(s) == [s[..WordRun(s)]] + Words(s[WordRun(s)..])
  {
  }

  lemma GapCollapses(rest: string)
    requires rest != "" && IsSpace(rest[0])
    ensures var tail := DropSpaces(rest[1..]);
            && CollapseSpaces(rest) == " " + CollapseSpaces(tail)
            && Words(rest) == Words(tail)
            && (tail == "" || !IsSpace(tail[0]))
            && (EndsInSpace(rest) <==> tail == "" || EndsInSpace(tail))
  {
    DroppedIsTail(rest[1..]);
    DroppingKeepsWords(rest[1..]);
    DroppingKeepsEnd(rest[1..]);
  }

  /** Words one space apart, and perhaps a space behind the last one. */
  function Spaced(words: seq<string>, spaceBehind: bool): string {
    Join(words, " ") + (if spaceBehind then " " else "")
  }

  lemma SpacedWord(word: string)
    ensures Spaced([word], false) == word && Spaced([word], true) == word + " " && Spaced([], false) == ""
  {
  }

  lemma SpacedFirst(word: string, words: seq<string>, spaceBehind: bool)
    requires words != []
    ensures Spaced([word] + words, spaceBehind) == word + (" " + Spaced(words, spaceBehind))
  {
    assert ([word] + words)[1..] == words;
  }

  /** Collapsed text that starts with a word is its words, one space apart, and perhaps a space behind them. */
  lemma {:induction false} CollapsedIsWords(s: string)
    requires s == "" || !IsSpace(s[0])
    ensures CollapseSpaces(s) == Spaced(Words(s), EndsInSpace(s))
    ensures Words(s) == [] <==> s == ""
    decreases |s|
  {
    NothingCollapses();
    if s == "" {
      SpacedWord("");
    } else {
      WordsAreFirstAndRest(s);
      var n := WordRun(s);
      var word, rest := s[..n], s[n..];
      assert word + rest == s;
      CollapseOfWord(word, rest);
      SpacedWord(word);
      if rest == "" {
        assert !EndsInSpace(s);
        assert word + "" == word;
      } else {
        GapCollapses(rest);
        SpaceOfRest(s, n);
        hide *;
        var tail := DropSpaces(rest[1..]);
        CollapsedIsWords(tail);
        if tail != "" {
          SpacedFirst(word, Words(tail), EndsInSpace(tail));
        }
      }
    }
  }

  lemma NothingCollapses()
    ensures CollapseSpaces("") == "" && Words("") == [] && !EndsInSpace("")
  {
  }

  lemma SpaceOfRest(s: string, n: nat)
    requires n < |s|
    ensures EndsInSpace(s) <==> EndsInSpace(s[n..])
  {
  }

  lemma {:induction false} JoinedEndsInWord(s: string)
    ensures var joined := Join(Words(s), " ");
            (joined == "" <==> Words(s) == []) && !EndsInSpace(joined) && (joined != "" ==> !IsSpace(joined[0]))
    decreases |s|
  {
    if s != "" {
      if IsSpace(s[0]) {
        JoinedEndsInWord(s[1..]);
      } else {
        var n := WordRun(s);
        JoinedEndsInWord(s[n..]);
        assert Words(s)[1..] == Words(s[n..]);
        assert n > 0;
      }
    }
  }

  /** The snippet of a memory is its words, each as it was, in order and one space apart. */
  lemma CleanedIsWords(s: string, stripTags: string -> string)
    ensures CleanSnippet(s, stripTags) == Join(Words(FoldDashes(stripTags(s))), " ")
  {
    var folded := FoldDashes(stripTags(s));
    var start := DropSpaces(folded);
    DroppedIsTail(folded);
    DroppingKeepsWords(folded);
    CollapsedIsWords(start);
    JoinedEndsInWord(start);
    var joined := Join(Words(start), " ");
    var collapsed := CollapseSpaces(start);
    assert DropSpaces(CollapseSpaces(folded)) == collapsed by {
      if folded != "" && IsSpace(folded[0]) {
        assert start == DropSpaces(folded[1..]);
        assert (" " + collapsed)[1..] == collapsed;
      }
    }
    TrimOfJoined(joined, EndsInSpace(start));
  }

  lemma TrimOfJoined(joined: string, space: bool)
    requires !EndsInSpace(joined)
    ensures TrimEnd(joined + (if space then " " else "")) == joined
  {
    if space {
      assert (joined + " ")[..|joined|] == joined;
    } else {
      assert joined + "" == joined;
    }
  }

  // ── Folding takes dashes and nothing else ─────────────────────────────────

  /** A text without its dashes of either kind. */
  function WithoutDashes(s: string): string {
    if s == "" then ""
    else if s[0] == DASH || [s[0]] == EM_DASH then WithoutDashes(s[1..])
    else [s[0]] + WithoutDashes(s[1..])
  }

  lemma {:induction false} WithoutDashesSkips(s: string, n: nat)
    requires n <= |s| && forall i :: 0 <= i < n ==> s[i] == DASH
    ensures WithoutDashes(s) == WithoutDashes(s[n..])
  {
    if n > 0 {
      WithoutDashesSkips(s[1..], n - 1);
      assert s[1..][n - 1..] == s[n..];
    }
  }

  lemma {:induction false} FoldingTakesDashesOnly(s: string)
    ensures WithoutDashes(FoldDashes(s)) == WithoutDashes(s)
    decreases |s|
  {
    if s != "" {
      var n := if s[0] == DASH then DashRun(s) else 1;
      var rest := FoldDashes(s[n..]);
      FoldingTakesDashesOnly(s[n..]);
      if s[0] != DASH {
        assert ([s[0]] + rest)[1..] == rest;
      } else if n >= 3 {
        assert (EM_DASH + rest)[1..] == rest;
        WithoutDashesSkips(s, n);
      } else {
        WithoutDashesSkips(s, n);
        WithoutDashesSkips(s[..n] + rest, n);
        assert (s[..n] + rest)[n..] == rest;
      }
    }
  }

  // ── Which line says what ──────────────────────────────────────────────────

  /** A memory has something to say if four characters of it are left. */
  predicate Speaks(memory: Memory, memoryMaxChars: nat, stripTags: string -> string) {
    |CleanSnippet(memory.content, stripTags)| >= 4 && memoryMaxChars >= 4
  }

  /** How many of the first n memories do. */
  function Speaking(memories: seq<Memory>, n: nat, memoryMaxChars: nat, stripTags: string -> string): nat
    requires n <= |memories|
  {
    if n == 0 then 0
    else Speaking(memories, n - 1, memoryMaxChars, stripTags) + (if Speaks(memories[n - 1], memoryMaxChars, stripTags) then 1 else 0)
  }

  function Note(id: string): string {
    " (truncated " + EM_DASH + " full text: get " + id + ")"
  }

  /** The line starts with the memory's number and some of its text, and ends in the note if the text was cut. */
  ghost predicate SaysOf(line: string, i: nat, memory: Memory, memoryMaxChars: nat, stripTags: string -> string) {
    exists text: string ::
      && text <= CleanSnippet(memory.content, stripTags)
      && |text| <= memoryMaxChars
      && (|text| == memoryMaxChars || text == CleanSnippet(memory.content, stripTags))
      && line == Decimal(i + 1) + ". " + text + (if memory.truncated && memory.id != "" then Note(memory.id) else "")
  }

  lemma OneLineOf(memory: Memory, i: nat, memoryMaxChars: nat, stripTags: string -> string)
    ensures var line := MemoryLine(memory, i, memoryMaxChars, stripTags);
            if Speaks(memory, memoryMaxChars, stripTags)
            then |line| == 1 && SaysOf(line[0], i, memory, memoryMaxChars, stripTags)
            else line == []
  {
    hide CleanSnippet, Decimal;
    var text := Clip(CleanSnippet(memory.content, stripTags), memoryMaxChars);
    if |text| >= 4 {
      var line := MemoryLine(memory, i, memoryMaxChars, stripTags)[0];
      assert line == Decimal(i + 1) + ". " + text + (if memory.truncated && memory.id != "" then Note(memory.id) else "");
      assert SaysOf(line, i, memory, memoryMaxChars, stripTags);
    }
  }

  /** Main result: every memory that speaks has its line, numbered by its rank in the search, behind those before it. */
  lemma {:induction false} EachSpeaksInTurn(memories: seq<Memory>, n: nat, memoryMaxChars: nat, stripTags: string -> string)
    requires n <= |memories|
    ensures var lines := MemoryLines(memories, n, memoryMaxChars, stripTags);
            && |lines| == Speaking(memories, n, memoryMaxChars, stripTags)
            && forall i :: 0 <= i < n && Speaks(memories[i], memoryMaxChars, stripTags) ==>
                 var at := Speaking(memories, i, memoryMaxChars, stripTags);
                 at < |lines| && SaysOf(lines[at], i, memories[i], memoryMaxChars, stripTags)
  {
    hide SaysOf, Speaks, MemoryLine;
    if n > 0 {
      EachSpeaksInTurn(memories, n - 1, memoryMaxChars, stripTags);
      OneLineOf(memories[n - 1], n - 1, memoryMaxChars, stripTags);
    }
  }
}
