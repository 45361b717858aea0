/**
 The backward transcript reader (integrations/claude-code-hooks/session-end.js, readTranscriptTail).

 The reader goes through the file from the end, one block at a time, carrying the bytes of a line
 whose start lies in an earlier block.  It is proved to agree with the plain forward reader:
 decode the whole file, split it into lines, parse each line, keep what follows from the
 wanted-th last user turn on.
 */
module TranscriptTail {
  import opened Options
  import opened Splitting
  import opened Transcript
  import opened Utf8

  /** Parsing of one line: an arbitrary function. */
  type LineParser = Text -> Option<Turn>

  // ── The forward reader ────────────────────────────────────────────────────

  function TurnOfLine(line: Text, parse: LineParser): seq<Turn> {
    if line == [] then [] else
      match parse(line)
      case None => []
      case Some(turn) => [turn]
  }

  function TurnsOf(lines: seq<Text>, parse: LineParser): seq<Turn> {
    if lines == [] then [] else TurnsOf(lines[..|lines| - 1], parse) + TurnOfLine(lines[|lines| - 1], parse)
  }

  /** All turns of a file, read front to back. */
  function ForwardTurns(file: seq<Byte>, parse: LineParser): seq<Turn> {
    TurnsOf(Split(Decode(file), LINE_FEED), parse)
  }

  function Users(turns: seq<Turn>): nat {
    if turns == [] then 0
    else Users(turns[..|turns| - 1]) + (if turns[|turns| - 1].role == User then 1 else 0)
  }

  /** The turns from the wanted-th last user turn on; all of them when there are fewer. */
  function LastTurns(turns: seq<Turn>, wanted: nat): seq<Turn> {
    if wanted == 0 || turns == [] then []
    else
      var last := turns[|turns| - 1];
      LastTurns(turns[..|turns| - 1], if last.role == User then wanted - 1 else wanted) + [last]
  }

  ghost predicate IsSuffix<T>(s: seq<T>, whole: seq<T>) {
    |s| <= |whole| && whole[|whole| - |s|..] == s
  }

  /**
   `cut` is the suffix of `turns` that starts at the wanted-th last user turn: it starts at a user
   turn and holds exactly `wanted` of them, or it is everything when there are fewer.
   */
  ghost predicate IsCut(cut: seq<Turn>, turns: seq<Turn>, wanted: nat) {
    && IsSuffix(cut, turns)
    && (wanted == 0 ==> cut == [])
    && (Users(turns) < wanted ==> cut == turns)
    && (0 < wanted <= Users(turns) ==> cut != [] && cut[0].role == User && Users(cut) == wanted)
  }

  lemma {:induction false} LastTurnsIsTheCut(turns: seq<Turn>, wanted: nat)
    ensures IsCut(LastTurns(turns, wanted), turns, wanted)
  {
    hide IsCut;
    if wanted != 0 && turns != [] {
      var last := turns[|turns| - 1];
      var init := turns[..|turns| - 1];
      var less := if last.role == User then wanted - 1 else wanted;
      LastTurnsIsTheCut(init, less);
      var cut := LastTurns(init, less);
      assert LastTurns(turns, wanted) == cut + [last];
      hide *;
      assert turns == init + [last];
      CutOneMore(init, last, less, cut);
    } else {
      NothingToCut(turns, wanted);
    }
  }

  lemma NothingToCut(turns: seq<Turn>, wanted: nat)
    requires wanted == 0 || turns == []
    ensures IsCut([], turns, wanted)
  {
  }

  /** The step of the proof above: a cut of the turns before `last`, extended by `last`. */
  lemma CutOneMore(init: seq<Turn>, last: Turn, less: nat, cut: seq<Turn>)
    requires IsCut(cut, init, less)
    ensures last.role == User ==> IsCut(cut + [last], init + [last], less + 1)
    ensures last.role != User && less > 0 ==> IsCut(cut + [last], init + [last], less)
  {
    hide IsSuffix, Users;
    UsersOfNone();
    UsersOfConcat(cut, [last]);
    UsersOfConcat(init, [last]);
    UsersOfOne(last);
    SuffixExtends(cut, init, last);
    assert cut != [] ==> (cut + [last])[0] == cut[0];
  }

  lemma UsersOfNone()
    ensures Users([]) == 0
  {
  }

  lemma SuffixExtends<T>(s: seq<T>, whole: seq<T>, last: T)
    requires IsSuffix(s, whole)
    ensures IsSuffix(s + [last], whole + [last])
  {
  }

  lemma InitOfConcat<T>(a: seq<T>, b: seq<T>)
    requires b != []
    ensures a + b != []
    ensures (a + b)[..|a + b| - 1] == a + b[..|b| - 1]
    ensures (a + b)[|a + b| - 1] == b[|b| - 1]
  {
  }

  lemma {:induction false} UsersOfConcat(a: seq<Turn>, b: seq<Turn>)
    ensures Users(a + b) == Users(a) + Users(b)
  {
    if b == [] {
      assert a + b == a;
    } else {
      UsersOfConcat(a, b[..|b| - 1]);
      InitOfConcat(a, b);
    }
  }

  /** Cutting a concatenation: the front part is cut by what the back part leaves wanted. */
  lemma {:induction false} LastTurnsOfConcat(a: seq<Turn>, b: seq<Turn>, wanted: nat)
    ensures Users(b) < wanted ==> LastTurns(a + b, wanted) == LastTurns(a, wanted - Users(b)) + b
    ensures Users(b) >= wanted ==> LastTurns(a + b, wanted) == LastTurns(b, wanted)
  {
    if b == [] {
      assert a + b == a;
    } else if wanted > 0 {
      var last, init := b[|b| - 1], b[..|b| - 1];
      LastTurnsOfConcat(a, init, if last.role == User then wanted - 1 else wanted);
      InitOfConcat(a, b);
    }
  }

  lemma {:induction false} TurnsOfConcat(a: seq<Text>, b: seq<Text>, parse: LineParser)
    ensures TurnsOf(a + b, parse) == TurnsOf(a, parse) + TurnsOf(b, parse)
  {
    if b == [] {
      assert a + b == a;
    } else {
      TurnsOfConcat(a, b[..|b| - 1], parse);
      hide TurnOfLine;
      InitOfConcat(a, b);
    }
  }

  /** Reading forward over a newline is reading both sides of it. */
  lemma ForwardAtNewline(a: seq<Byte>, b: seq<Byte>, parse: LineParser)
    ensures ForwardTurns(a + [NEWLINE] + b, parse) == ForwardTurns(a, parse) + ForwardTurns(b, parse)
  {
    DecodeAtNewline(a, b);
    hide Decode, Split;
    SplitAtSeparator(Decode(a), LINE_FEED, Decode(b));
    TurnsOfConcat(Split(Decode(a), LINE_FEED), Split(Decode(b), LINE_FEED), parse);
  }

  // ── The backward reader ───────────────────────────────────────────────────

  function Reverse<T>(s: seq<T>): (r: seq<T>)
    ensures |r| == |s|
    ensures forall i :: 0 <= i < |s| ==> r[i] == s[|s| - 1 - i]
  {
    if s == [] then [] else [s[|s| - 1]] + Reverse(s[..|s| - 1])
  }

  method IndexOfNewline(buf: seq<Byte>) returns (at: int)
    ensures at == -1 ==> NEWLINE !in buf
    ensures at != -1 ==> 0 <= at < |buf| && buf[at] == NEWLINE && NEWLINE !in buf[..at]
  {
    at := 0;
    while at < |buf|
      invariant 0 <= at <= |buf|
      invariant NEWLINE !in buf[..at]
    {
      if buf[at] == NEWLINE {
        return;
      }
      at := at + 1;
    }
    at := -1;
  }

  /** Looking at one more line from the back. */
  lemma OneLineBack(lines: seq<Text>, i: nat, wanted: nat, parse: LineParser)
    requires i < |lines| && wanted > 0
    ensures var before, turn := TurnsOf(lines[..i], parse), TurnOfLine(lines[i], parse);
            LastTurns(TurnsOf(lines[..i + 1], parse), wanted) ==
            if turn == [] then LastTurns(before, wanted)
            else LastTurns(before, if turn[0].role == User then wanted - 1 else wanted) + turn
  {
    FrontTurns(lines, i, parse);
    hide TurnsOf, TurnOfLine;
    var before, turn := TurnsOf(lines[..i], parse), TurnOfLine(lines[i], parse);
    if turn != [] {
      assert (before + turn)[..|before|] == before;
    } else {
      assert before + turn == before;
    }
  }

  lemma FrontTurns(lines: seq<Text>, i: nat, parse: LineParser)
    requires i < |lines|
    ensures TurnsOf(lines[..i + 1], parse) == TurnsOf(lines[..i], parse) + TurnOfLine(lines[i], parse)
    ensures |TurnOfLine(lines[i], parse)| <= 1
  {
    var front := lines[..i + 1];
    assert front[..|front| - 1] == lines[..i] && front[|front| - 1] == lines[i];
  }

  /** Collects the turns of some complete lines, last line first, until `wanted` user turns are in hand. */
  method CollectBackward(lines: seq<Text>, wanted: nat, parse: LineParser, turns0: seq<Turn>, userTurns0: nat)
    returns (turns: seq<Turn>, userTurns: nat)
    requires userTurns0 < wanted
    ensures Reverse(turns) == LastTurns(TurnsOf(lines, parse), wanted - userTurns0) + Reverse(turns0)
    ensures userTurns == userTurns0 + Users(LastTurns(TurnsOf(lines, parse), wanted - userTurns0))
    ensures userTurns <= wanted
  {
    hide TurnsOf, LastTurns, Users, Reverse;
    turns, userTurns := turns0, userTurns0;
    var i := |lines| - 1;
    ghost var target := LastTurns(TurnsOf(lines, parse), wanted - userTurns0);
    ghost var found: seq<Turn> := [];
    NothingWanted();
    UsersOfNone();
    assert lines[..|lines|] == lines;
    while i >= 0 && userTurns < wanted
      invariant -1 <= i < |lines|
      invariant userTurns == userTurns0 + Users(found) <= wanted
      invariant Reverse(turns) == found + Reverse(turns0)
      invariant target == LastTurns(TurnsOf(lines[..i + 1], parse), wanted - userTurns) + found
    {
      OneLineBack(lines, i, wanted - userTurns, parse);
      if lines[i] != [] && parse(lines[i]).Some? {
        var t := parse(lines[i]).value;
        UsersOfConcat([t], found);
        UsersOfOne(t);
        Pushed(turns, t);
        turns := turns + [t];
        found := [t] + found;
        if t.role == User {
          userTurns := userTurns + 1;
        }
      }
      i := i - 1;
    }
    NoLinesNoTurns(lines, parse, wanted - userTurns);
    assert target == found;
  }

  lemma NothingWanted()
    ensures forall turns :: LastTurns(turns, 0) == []
  {
  }

  lemma UsersOfOne(t: Turn)
    ensures Users([t]) == if t.role == User then 1 else 0
  {
  }

  lemma NoLinesNoTurns(lines: seq<Text>, parse: LineParser, wanted: nat)
    ensures LastTurns(TurnsOf(lines[..0], parse), wanted) == []
  {
  }

  lemma Pushed<T>(s: seq<T>, x: T)
    ensures Reverse(s + [x]) == [x] + Reverse(s)
  {
    assert (s + [x])[..|s|] == s;
  }

  /** What the lines after the carried bytes contribute: `rest` is empty or starts at a newline. */
  function TurnsAfter(rest: seq<Byte>, parse: LineParser): seq<Turn> {
    if rest == [] then [] else ForwardTurns(rest[1..], parse)
  }

  ghost predicate AtLineEnd(rest: seq<Byte>) {
    rest == [] || rest[0] == NEWLINE
  }

  lemma ForwardBefore(lines: seq<Byte>, rest: seq<Byte>, parse: LineParser)
    requires AtLineEnd(rest)
    ensures ForwardTurns(lines + rest, parse) == ForwardTurns(lines, parse) + TurnsAfter(rest, parse)
  {
    if rest == [] {
      assert lines + rest == lines;
    } else {
      assert lines + rest == lines + [NEWLINE] + rest[1..];
      ForwardAtNewline(lines, rest[1..], parse);
    }
  }

  /** Prefixing complete lines only adds turns in front, as far as they are still wanted. */
  lemma CutBefore(lines: seq<Byte>, rest: seq<Byte>, wanted: nat, parse: LineParser)
    requires AtLineEnd(rest)
    ensures var after := TurnsAfter(rest, parse);
            var all := ForwardTurns(lines + rest, parse);
            && (Users(after) < wanted ==>
                  LastTurns(all, wanted) == LastTurns(ForwardTurns(lines, parse), wanted - Users(after)) + after)
            && (Users(after) >= wanted ==> LastTurns(all, wanted) == LastTurns(after, wanted))
  {
    ForwardBefore(lines, rest, parse);
    hide *;
    LastTurnsOfConcat(ForwardTurns(lines, parse), TurnsAfter(rest, parse), wanted);
  }

  /**
   Where the reader stands between blocks: the bytes from `pos` on are the carried end of a line,
   then complete lines whose last turns have been collected.
   */
  ghost predicate Between(file: seq<Byte>, pos: nat, carry: seq<Byte>, rest: seq<Byte>, found: seq<Turn>,
                          wanted: nat, parse: LineParser)
  {
    && pos <= |file| && file[pos..] == carry + rest
    && AtLineEnd(rest) && NEWLINE !in carry
    && found == LastTurns(TurnsAfter(rest, parse), wanted)
  }

  /** One more block whose complete lines start after a newline at `nl`. */
  lemma BlockStep(file: seq<Byte>, pos: nat, carry: seq<Byte>, rest: seq<Byte>, found: seq<Turn>,
                  wanted: nat, parse: LineParser, pos': nat, buf: seq<Byte>, nl: nat)
    requires Between(file, pos, carry, rest, found, wanted, parse)
    requires pos' <= pos && Users(found) < wanted
    requires buf == file[pos'..pos] + carry
    requires nl < |buf| && buf[nl] == NEWLINE && NEWLINE !in buf[..nl]
    ensures var more := LastTurns(ForwardTurns(buf[nl + 1..], parse), wanted - Users(found));
            Between(file, pos', buf[..nl], [NEWLINE] + buf[nl + 1..] + rest, more + found, wanted, parse)
  {
    hide TurnsAfter, ForwardTurns, LastTurns, Users, AtLineEnd;
    BytesBetween(file, pos', pos, carry, rest, buf, nl);
    BlockTurns(buf[nl + 1..], rest, found, wanted, parse);
  }

  lemma BlockTurns(lines: seq<Byte>, rest: seq<Byte>, found: seq<Turn>, wanted: nat, parse: LineParser)
    requires AtLineEnd(rest)
    requires found == LastTurns(TurnsAfter(rest, parse), wanted) && Users(found) < wanted
    ensures LastTurns(TurnsAfter([NEWLINE] + lines + rest, parse), wanted) ==
            LastTurns(ForwardTurns(lines, parse), wanted - Users(found)) + found
  {
    hide *;
    TurnsAfterNewline(lines + rest, parse);
    assert [NEWLINE] + lines + rest == [NEWLINE] + (lines + rest);
    FoundIsAll(rest, found, wanted, parse);
    CutBefore(lines, rest, wanted, parse);
  }

  lemma TurnsAfterNewline(bytes: seq<Byte>, parse: LineParser)
    ensures TurnsAfter([NEWLINE] + bytes, parse) == ForwardTurns(bytes, parse)
  {
    hide ForwardTurns;
    assert ([NEWLINE] + bytes)[1..] == bytes;
  }

  lemma BytesBetween(file: seq<Byte>, pos': nat, pos: nat, carry: seq<Byte>, rest: seq<Byte>, buf: seq<Byte>, nl: nat)
    requires pos' <= pos <= |file| && file[pos..] == carry + rest
    requires buf == file[pos'..pos] + carry && nl < |buf| && buf[nl] == NEWLINE
    ensures file[pos'..] == buf[..nl] + ([NEWLINE] + buf[nl + 1..] + rest)
    ensures AtLineEnd([NEWLINE] + buf[nl + 1..] + rest)
  {
    assert file[pos'..] == file[pos'..pos] + file[pos..] == buf + rest;
    assert buf == buf[..nl] + [NEWLINE] + buf[nl + 1..];
  }

  /** While user turns are still wanted, nothing has been cut off yet. */
  lemma FoundIsAll(rest: seq<Byte>, found: seq<Turn>, wanted: nat, parse: LineParser)
    requires found == LastTurns(TurnsAfter(rest, parse), wanted) && Users(found) < wanted
    ensures found == TurnsAfter(rest, parse)
  {
    LastTurnsIsTheCut(TurnsAfter(rest, parse), wanted);
  }

  /** The block that reaches the start of the file. */
  lemma FirstBlock(file: seq<Byte>, pos: nat, carry: seq<Byte>, rest: seq<Byte>, found: seq<Turn>,
                   wanted: nat, parse: LineParser)
    requires Between(file, pos, carry, rest, found, wanted, parse)
    requires Users(found) < wanted
    ensures LastTurns(ForwardTurns(file, parse), wanted) ==
            LastTurns(ForwardTurns(file[..pos] + carry, parse), wanted - Users(found)) + found
  {
    hide ForwardTurns, LastTurns, Users, TurnsAfter;
    FoundIsAll(rest, found, wanted, parse);
    CutBefore(file[..pos] + carry, rest, wanted, parse);
    assert file == file[..pos] + file[pos..] == file[..pos] + carry + rest;
  }

  /** Stopping early returns a suffix of the full answer, and the full answer once enough user turns are in hand. */
  lemma StoppedEarly(file: seq<Byte>, pos: nat, carry: seq<Byte>, rest: seq<Byte>, found: seq<Turn>,
                     wanted: nat, parse: LineParser)
    requires Between(file, pos, carry, rest, found, wanted, parse)
    ensures IsSuffix(found, LastTurns(ForwardTurns(file, parse), wanted))
    ensures Users(found) >= wanted ==> found == LastTurns(ForwardTurns(file, parse), wanted)
  {
    hide ForwardTurns, LastTurns, Users, TurnsAfter, IsSuffix;
    var after := TurnsAfter(rest, parse);
    var before := ForwardTurns(file[..pos] + carry, parse);
    CutBefore(file[..pos] + carry, rest, wanted, parse);
    assert file == file[..pos] + file[pos..] == file[..pos] + carry + rest;
    CutIsSuffix(before, after, wanted);
  }

  lemma CutIsSuffix(before: seq<Turn>, after: seq<Turn>, wanted: nat)
    ensures Users(after) < wanted ==>
              IsSuffix(LastTurns(after, wanted), LastTurns(before, wanted - Users(after)) + after)
    ensures IsSuffix(LastTurns(after, wanted), LastTurns(after, wanted))
    ensures wanted > 0 && Users(LastTurns(after, wanted)) >= wanted ==> Users(after) >= wanted
  {
    LastTurnsIsTheCut(after, wanted);
  }

  lemma EmptyFile(parse: LineParser)
    ensures ForwardTurns([], parse) == []
  {
    assert Split(Decode([]), LINE_FEED) == [[]];
    var lines: seq<Text> := [[]];
    assert TurnsOf(lines, parse) == TurnsOf(lines[..0], parse) + TurnOfLine(lines[0], parse);
  }

  /**
   The turns returned are in chronological order.  When the ceiling does not bite, they are exactly
   the forward reader's last turns; when it does, they are a suffix of those.
   */
  method ReadTranscriptTail(file: seq<Byte>, blockSize: nat, byteCeiling: int, wantUserTurns: nat, parse: LineParser)
    returns (result: seq<Turn>)
    requires blockSize >= 1
    ensures byteCeiling >= |file| ==> result == LastTurns(ForwardTurns(file, parse), wantUserTurns)
    ensures IsSuffix(result, LastTurns(ForwardTurns(file, parse), wantUserTurns))
  {
    hide LastTurns, TurnsOf, Split, Decode, Users, Between, IsSuffix;
    ghost var whole := LastTurns(ForwardTurns(file, parse), wantUserTurns);
    var turns: seq<Turn> := [];
    var userTurns := 0;
    var pos := |file|;
    var readBytes := 0;
    var carry: seq<Byte> := [];
    ghost var rest: seq<Byte> := [];
    Start(file, wantUserTurns, parse);
    while pos > 0 && readBytes < byteCeiling && userTurns < wantUserTurns
      invariant 0 <= pos <= |file| && readBytes == |file| - pos
      invariant pos > 0 ==> Between(file, pos, carry, rest, Reverse(turns), wantUserTurns, parse)
      invariant pos == 0 ==> Reverse(turns) == whole
      invariant userTurns == Users(Reverse(turns)) <= wantUserTurns
      decreases pos
    {
      var len := if blockSize <= pos then blockSize else pos;
      ghost var end, found := pos, Reverse(turns);
      pos := pos - len;
      var chunk := file[pos..pos + len];
      readBytes := readBytes + len;
      var buf := chunk + carry;
      ghost var carry0 := carry;
      var firstNl := IndexOfNewline(buf);
      var start := 0;
      if pos > 0 {
        if firstNl == -1 {
          LongLine(file, end, carry, rest, found, wantUserTurns, parse, pos);
          carry := buf;
          continue;
        }
        carry := buf[..firstNl];
        start := firstNl + 1;
      } else {
        carry := [];
      }
      var lines := Split(Decode(buf[start..]), LINE_FEED);
      turns, userTurns := CollectBackward(lines, wantUserTurns, parse, turns, userTurns);
      ghost var more := LastTurns(ForwardTurns(buf[start..], parse), wantUserTurns - Users(found));
      UsersOfConcat(more, found);
      if pos > 0 {
        BlockStep(file, end, carry0, rest, found, wantUserTurns, parse, pos, buf, firstNl);
        rest := [NEWLINE] + buf[start..] + rest;
      } else {
        assert buf[0..] == file[..end] + carry0;
        FirstBlock(file, end, carry0, rest, found, wantUserTurns, parse);
      }
    }
    result := Reverse(turns);
    if pos > 0 {
      StoppedEarly(file, pos, carry, rest, result, wantUserTurns, parse);
    } else {
      WholeIsSuffix(whole);
    }
  }

  lemma Start(file: seq<Byte>, wanted: nat, parse: LineParser)
    ensures Between(file, |file|, [], [], [], wanted, parse)
    ensures |file| == 0 ==> LastTurns(ForwardTurns(file, parse), wanted) == []
    ensures Users([]) == 0
  {
    EmptyFile(parse);
  }

  lemma LongLine(file: seq<Byte>, pos: nat, carry: seq<Byte>, rest: seq<Byte>, found: seq<Turn>,
                 wanted: nat, parse: LineParser, pos': nat)
    requires Between(file, pos, carry, rest, found, wanted, parse)
    requires pos' <= pos && NEWLINE !in file[pos'..pos] + carry
    ensures Between(file, pos', file[pos'..pos] + carry, rest, found, wanted, parse)
  {
    hide TurnsAfter, LastTurns, AtLineEnd;
    assert file[pos'..] == file[pos'..pos] + file[pos..];
    assert file[pos'..pos] + (carry + rest) == (file[pos'..pos] + carry) + rest;
  }

  lemma WholeIsSuffix<T>(s: seq<T>)
    ensures IsSuffix(s, s)
  {
  }

  /** An empty line is no turn, whatever the parser would make of it. */
  lemma EmptyLinesAreSkipped(a: seq<Byte>, b: seq<Byte>, parse: LineParser)
    ensures ForwardTurns(a + [NEWLINE] + ([NEWLINE] + b), parse) == ForwardTurns(a + [NEWLINE] + b, parse)
  {
    ForwardAtNewline(a, [NEWLINE] + b, parse);
    ForwardAtNewline([], b, parse);
    ForwardAtNewline(a, b, parse);
    EmptyFile(parse);
    hide ForwardTurns;
    assert [] + [NEWLINE] + b == [NEWLINE] + b;
    assert [] + ForwardTurns(b, parse) == ForwardTurns(b, parse);
  }

  /** A line that is not empty is the turn that the parser makes of it, if it makes one. */
  lemma OneLineIsOneTurn(line: seq<Byte>, parse: LineParser)
    requires NEWLINE !in line && Decode(line) != []
    ensures ForwardTurns(line, parse) == if parse(Decode(line)).Some? then [parse(Decode(line)).value] else []
  {
    DecodeWithoutNewline(line);
    SplitWithoutSeparator(Decode(line), LINE_FEED);
    hide Decode, Split;
    var lines := [Decode(line)];
    assert lines[..0] == [] && TurnsOf([], parse) == [];
  }
}
