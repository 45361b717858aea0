/**
 The budgeted session formatter (integrations/claude-code-hooks/session-end.js, formatSession).

 Two turns are served before the others: the last user turn and the final turn.  Each may be
 clipped to a fair share of the budget.  What is left goes to whole turns, newest first.
 */
module SessionFormat {
  import opened JsText
  import opened Splitting
  import opened Transcript

  const ELLIPSIS := "\U{2026}"
  const BREAK := "\n\n"

  function Rendered(turns: seq<Turn>, i: nat, assistantCap: nat): (r: string)
    requires i < |turns|
  {
    var t := turns[i];
    var text :=
      if t.role == Assistant && i != |turns| - 1 && |t.text| > assistantCap
      then t.text[..assistantCap] + ELLIPSIS else t.text;
    (if t.role == User then "User" else "Assistant") + ": " + text
  }

  /** Index of the last user turn, or -1. */
  function LastUser(turns: seq<Turn>): (at: int)
    ensures -1 <= at < |turns|
    ensures at >= 0 ==> turns[at].role == User
    ensures forall i :: at < i < |turns| ==> turns[i].role != User
  {
    if turns == [] then -1
    else if turns[|turns| - 1].role == User then |turns| - 1
    else LastUser(turns[..|turns| - 1])
  }

  /** The turns served first, in chronological order. */
  function Reserved(turns: seq<Turn>): (r: seq<nat>)
    requires turns != []
  {
    var last, user := |turns| - 1, LastUser(turns);
    if user < 0 || user == last then [last] else [user, last]
  }

  ghost function ReservedSet(turns: seq<Turn>): set<nat>
    requires turns != []
  {
    set i | i in Reserved(turns)
  }

  /** What is kept of the first n turns, oldest first. */
  function KeptTexts(kept: map<nat, string>, n: nat): seq<string> {
    if n == 0 then []
    else KeptTexts(kept, n - 1) + (if n - 1 in kept then [kept[n - 1]] else [])
  }

  function Body(kept: map<nat, string>, n: nat): string {
    Join(KeptTexts(kept, n), BREAK)
  }

  /** Characters spent on kept turns, counting a separator for each. */
  function Spent(kept: map<nat, string>, n: nat): nat {
    if n == 0 then 0
    else Spent(kept, n - 1) + (if n - 1 in kept then |kept[n - 1]| + 2 else 0)
  }

  function Lengths(texts: seq<string>): nat {
    if texts == [] then 0 else |texts[0]| + 2 + Lengths(texts[1..])
  }

  lemma {:induction false} JoinLength(texts: seq<string>)
    ensures |Join(texts, BREAK)| + (if texts == [] then 0 else 2) == Lengths(texts)
  {
    if |texts| > 1 {
      JoinLength(texts[1..]);
    } else if |texts| == 1 {
      assert Lengths(texts[1..]) == 0;
    }
  }

  lemma {:induction false} LengthsOfSnoc(texts: seq<string>, text: string)
    ensures Lengths(texts + [text]) == Lengths(texts) + |text| + 2
  {
    if texts == [] {
      assert Lengths([text]) == |text| + 2 + Lengths([]);
    } else {
      assert (texts + [text])[1..] == texts[1..] + [text];
      LengthsOfSnoc(texts[1..], text);
    }
  }

  lemma {:induction false} SpentIsLengths(kept: map<nat, string>, n: nat)
    ensures Spent(kept, n) == Lengths(KeptTexts(kept, n))
  {
    if n > 0 {
      SpentIsLengths(kept, n - 1);
      if n - 1 in kept {
        LengthsOfSnoc(KeptTexts(kept, n - 1), kept[n - 1]);
      } else {
        assert KeptTexts(kept, n) == KeptTexts(kept, n - 1);
      }
    }
  }

  lemma {:induction false} SpendingAdds(kept: map<nat, string>, i: nat, text: string, n: nat)
    requires i !in kept
    ensures Spent(kept[i := text], n) == Spent(kept, n) + (if i < n then |text| + 2 else 0)
  {
    if n > 0 {
      SpendingAdds(kept, i, text, n - 1);
    }
  }

  lemma {:induction false} NothingKept(kept: map<nat, string>, n: nat)
    requires forall i :: i in kept ==> i < n
    ensures KeptTexts(kept, n) == [] <==> kept == map[]
    ensures Spent(map[], n) == 0
  {
    if n > 0 {
      if n - 1 in kept {
        NothingKept(map[], n - 1);
      } else {
        NothingKept(kept, n - 1);
      }
    }
  }

  /** The exact length of the body: the running account of the formatter never drifts from it. */
  lemma BodyLength(kept: map<nat, string>, n: nat)
    requires forall i :: i in kept ==> i < n
    ensures |Body(kept, n)| == Spent(kept, n) - (if kept == map[] then 0 else 2)
  {
    JoinLength(KeptTexts(kept, n));
    SpentIsLengths(kept, n);
    NothingKept(kept, n);
  }

  /** A kept turn is shown whole, or as a prefix with an ellipsis if it is one of the reserved ones. */
  ghost predicate Shown(turns: seq<Turn>, i: nat, assistantCap: nat, text: string)
    requires i < |turns|
  {
    var whole := Rendered(turns, i, assistantCap);
    || text == whole
    || (i in Reserved(turns) && exists k :: 40 <= k < |whole| && text == whole[..k] + ELLIPSIS)
  }

  ghost predicate AllShown(turns: seq<Turn>, assistantCap: nat, kept: map<nat, string>) {
    forall i :: i in kept ==> i < |turns| && Shown(turns, i, assistantCap, kept[i])
  }

  /** The budget left equals the initial one less the exact cost of what is kept, and is not overdrawn by it. */
  ghost predicate Accounted(kept: map<nat, string>, n: nat, initial: int, budget: int) {
    && (forall i :: i in kept ==> i < n)
    && budget == initial - |Body(kept, n)|
    && (kept != map[] ==> budget >= 0)
  }

  function Separator(kept: map<nat, string>): nat {
    if kept == map[] then 0 else 2
  }

  lemma SpendKeepsAccount(kept: map<nat, string>, n: nat, initial: int, budget: int, i: nat, text: string)
    requires Accounted(kept, n, initial, budget)
    requires i < n && i !in kept
    requires |text| + Separator(kept) <= budget
    ensures Accounted(kept[i := text], n, initial, budget - |text| - Separator(kept))
  {
    var kept' := kept[i := text];
    assert i in kept';
    SpendingAdds(kept, i, text, n);
    BodyLength(kept, n);
    BodyLength(kept', n);
    hide Body;
    if kept == map[] {
      NothingKept(kept, n);
    }
  }

  function Min(a: int, b: int): int { if a <= b then a else b }

  /**
   What the two reserved turns get.  The earlier one is shown whole up to half of the budget and
   clipped to exactly that half beyond; the final one is served the same way from all that is left.
   */
  ghost predicate FairShares(turns: seq<Turn>, assistantCap: nat, initial: int, kept: map<nat, string>) {
    turns != [] &&
    var last, user := |turns| - 1, LastUser(turns);
    if user < 0 || user == last then
      last in kept && |kept[last]| == Min(|Rendered(turns, last, assistantCap)|, initial)
    else
      && user in kept && last in kept
      && |kept[user]| == Min(|Rendered(turns, user, assistantCap)|, initial / 2)
      && |kept[last]| == Min(|Rendered(turns, last, assistantCap)|, initial - |kept[user]| - 2)
  }

  lemma AccountOpens(n: nat, initial: int)
    ensures Accounted(map[], n, initial, initial)
  {
    NothingKept(map[], n);
    BodyLength(map[], n);
  }

  /** Serves the reserved turns: whole if they fit their share, otherwise clipped to it. */
  method ServeReserved(turns: seq<Turn>, assistantCap: nat, initial: int)
    returns (kept: map<nat, string>, budget: int)
    requires turns != []
    ensures Accounted(kept, |turns|, initial, budget)
    ensures AllShown(turns, assistantCap, kept)
    ensures forall i :: i in kept ==> i in Reserved(turns)
    ensures initial >= 85 ==> FairShares(turns, assistantCap, initial, kept)
  {
    hide Body, Rendered, Accounted, LastUser;
    kept, budget := map[], initial;
    var reserved := Reserved(turns);
    AccountOpens(|turns|, initial);
    var n := 0;
    while n < |reserved|
      invariant 0 <= n <= |reserved|
      invariant Accounted(kept, |turns|, initial, budget)
      invariant AllShown(turns, assistantCap, kept)
      invariant forall i :: i in kept ==> i in reserved[..n]
      invariant n == 0 ==> budget == initial && kept == map[]
      invariant initial >= 85 && n == 1 && |reserved| == 2 ==>
                  && kept.Keys == {reserved[0]}
                  && |kept[reserved[0]]| == Min(|Rendered(turns, reserved[0], assistantCap)|, initial / 2)
                  && budget == initial - |kept[reserved[0]]|
      invariant initial >= 85 && n == |reserved| ==> FairShares(turns, assistantCap, initial, kept)
    {
      var i := reserved[n];
      var sep := Separator(kept);
      var share := (budget - sep) / (|reserved| - n);
      var piece := Rendered(turns, i, assistantCap);
      if |piece| + sep <= budget && (n == |reserved| - 1 || |piece| <= share) {
        SpendKeepsAccount(kept, |turns|, initial, budget, i, piece);
        budget := budget - |piece| - sep;
        kept := kept[i := piece];
      } else if share > 40 {
        var clipped := piece[..share - 1] + ELLIPSIS;
        SpendKeepsAccount(kept, |turns|, initial, budget, i, clipped);
        budget := budget - |clipped| - sep;
        kept := kept[i := clipped];
      }
      n := n + 1;
    }
  }

  /** Omitted turns, whole, would not fit beside the result. */
  ghost predicate NothingMoreFits(turns: seq<Turn>, assistantCap: nat, kept: map<nat, string>, room: int) {
    forall i :: 0 <= i < |turns| && i !in kept ==> |Rendered(turns, i, assistantCap)| + 2 > room
  }

  /** What had been given out when turn i had its turn: the turns served first, and newer ones. */
  function Before(kept: map<nat, string>, first: set<nat>, i: nat): map<nat, string> {
    map j | j in kept && (j in first || j > i) :: kept[j]
  }

  /** An omitted turn was too long for what those before it had left. */
  ghost predicate LeftOutForLength(turns: seq<Turn>, assistantCap: nat, kept: map<nat, string>, first: set<nat>, initial: int, i: nat)
    requires i < |turns|
  {
    var before := Before(kept, first, i);
    |Rendered(turns, i, assistantCap)| + Separator(before) > initial - |Body(before, |turns|)|
  }

  ghost predicate NewestFirst(turns: seq<Turn>, assistantCap: nat, kept: map<nat, string>, first: set<nat>, initial: int, from: nat) {
    forall i :: from <= i < |turns| && i !in kept ==> LeftOutForLength(turns, assistantCap, kept, first, initial, i)
  }

  lemma OlderTurnsComeLater(turns: seq<Turn>, assistantCap: nat, kept: map<nat, string>, first: set<nat>, initial: int, i: nat, text: string)
    requires NewestFirst(turns, assistantCap, kept, first, initial, i + 1)
    requires i !in first
    ensures NewestFirst(turns, assistantCap, kept[i := text], first, initial, i)
  {
    hide Rendered, Body;
    forall j | i < j < |turns| && j !in kept ensures LeftOutForLength(turns, assistantCap, kept[i := text], first, initial, j) {
      assert LeftOutForLength(turns, assistantCap, kept, first, initial, j);
      assert Before(kept[i := text], first, j) == Before(kept, first, j);
    }
  }

  lemma PassedOver(turns: seq<Turn>, assistantCap: nat, kept: map<nat, string>, first: set<nat>, initial: int, budget: int, i: nat)
    requires i < |turns| && NewestFirst(turns, assistantCap, kept, first, initial, i + 1)
    requires forall j :: j in kept ==> j in first || j > i
    requires Accounted(kept, |turns|, initial, budget)
    requires i in kept || |Rendered(turns, i, assistantCap)| + Separator(kept) > budget
    ensures NewestFirst(turns, assistantCap, kept, first, initial, i)
  {
    hide Rendered, Body;
    assert Before(kept, first, i) == kept;
  }

  lemma NoneLeft(turns: seq<Turn>, assistantCap: nat, kept: map<nat, string>, first: set<nat>, initial: int)
    ensures NewestFirst(turns, assistantCap, kept, first, initial, |turns|)
  {
  }

  /** Serves the other turns, newest first, each whole or not at all. */
  method ServeOthers(turns: seq<Turn>, assistantCap: nat, ghost initial: int, kept0: map<nat, string>, budget0: int)
    returns (kept: map<nat, string>, budget: int)
    requires Accounted(kept0, |turns|, initial, budget0)
    requires AllShown(turns, assistantCap, kept0)
    ensures Accounted(kept, |turns|, initial, budget)
    ensures AllShown(turns, assistantCap, kept)
    ensures forall i :: i in kept0 ==> i in kept && kept[i] == kept0[i]
    ensures NothingMoreFits(turns, assistantCap, kept, budget)
    ensures NewestFirst(turns, assistantCap, kept, kept0.Keys, initial, 0)
  {
    hide Rendered, Accounted, LeftOutForLength, NewestFirst;
    NoneLeft(turns, assistantCap, kept0, kept0.Keys, initial);
    kept, budget := kept0, budget0;
    var i: int := |turns|;
    while i > 0
      invariant 0 <= i <= |turns|
      invariant Accounted(kept, |turns|, initial, budget)
      invariant AllShown(turns, assistantCap, kept)
      invariant forall j :: j in kept0 ==> j in kept && kept[j] == kept0[j]
      invariant forall j :: i <= j < |turns| && j !in kept ==> |Rendered(turns, j, assistantCap)| + 2 > budget
      invariant forall j :: j in kept ==> j in kept0.Keys || j >= i
      invariant NewestFirst(turns, assistantCap, kept, kept0.Keys, initial, i)
    {
      i := i - 1;
      var text := Rendered(turns, i, assistantCap);
      if i !in kept && |text| + Separator(kept) <= budget {
        SpendKeepsAccount(kept, |turns|, initial, budget, i, text);
        OlderTurnsComeLater(turns, assistantCap, kept, kept0.Keys, initial, i, text);
        budget := budget - |text| - Separator(kept);
        kept := kept[i as nat := text];
      } else {
        PassedOver(turns, assistantCap, kept, kept0.Keys, initial, budget, i);
      }
    }
  }

  /** The kept texts sorted by turn index. */
  method InOrder(kept: map<nat, string>, n: nat) returns (texts: seq<string>)
    ensures texts == KeptTexts(kept, n)
  {
    texts := [];
    var i: nat := 0;
    while i < n
      invariant 0 <= i <= n
      invariant texts == KeptTexts(kept, i)
    {
      if i in kept {
        texts := texts + [kept[i]];
      }
      i := i + 1;
    }
  }

  /**
   The stored text: the header, then the kept turns in chronological order.

   `kept` is the formatter's own table of what it shows of which turn.
   */
  method FormatSession(turns: seq<Turn>, header: string, maxChars: int, assistantCap: nat)
    returns (result: string, ghost kept: map<nat, string>)
    ensures turns == [] ==> result == header
    ensures turns != [] ==> result == header + BREAK + Body(kept, |turns|)
    ensures AllShown(turns, assistantCap, kept)
    ensures turns != [] && |header| + 2 <= maxChars ==> |result| <= maxChars
    ensures kept != map[] ==> |result| <= maxChars
    ensures turns != [] && maxChars - |header| - 2 >= 85 ==>
              && |turns| - 1 in kept && (LastUser(turns) >= 0 ==> LastUser(turns) in kept)
              && FairShares(turns, assistantCap, maxChars - |header| - 2, kept)
              && NewestFirst(turns, assistantCap, kept, ReservedSet(turns), maxChars - |header| - 2, 0)
    ensures turns != [] ==> NothingMoreFits(turns, assistantCap, kept, maxChars - |result|)
  {
    hide AllShown, NothingMoreFits, NewestFirst, KeptTexts, Join, FairShares, Rendered, LastUser, Body;
    kept := map[];
    NothingShown(turns, assistantCap);
    if turns == [] {
      return header, kept;
    }
    var initial := maxChars - |header| - 2;
    var reserved, left := ServeReserved(turns, assistantCap, initial);
    var table, budget := ServeOthers(turns, assistantCap, initial, reserved, left);
    if initial >= 85 {
      SharesSurvive(turns, assistantCap, initial, reserved, table);
      SharesAreReserved(turns, assistantCap, initial, reserved);
    }
    kept := table;
    var texts := InOrder(table, |turns|);
    result := header + BREAK + Join(texts, BREAK);
    JoinIsBody(kept, |turns|);
    assert |BREAK| == 2;
    EmptyBody(kept, |turns|);
  }

  lemma SharesSurvive(turns: seq<Turn>, assistantCap: nat, initial: int, kept0: map<nat, string>, kept: map<nat, string>)
    requires FairShares(turns, assistantCap, initial, kept0)
    requires forall i :: i in kept0 ==> i in kept && kept[i] == kept0[i]
    ensures FairShares(turns, assistantCap, initial, kept)
    ensures |turns| - 1 in kept && (LastUser(turns) >= 0 ==> LastUser(turns) in kept)
  {
    hide Rendered;
  }

  lemma SharesAreReserved(turns: seq<Turn>, assistantCap: nat, initial: int, kept: map<nat, string>)
    requires FairShares(turns, assistantCap, initial, kept)
    requires forall i :: i in kept ==> i in Reserved(turns)
    ensures kept.Keys == ReservedSet(turns)
  {
    hide Rendered;
  }

  lemma NothingShown(turns: seq<Turn>, assistantCap: nat)
    ensures AllShown(turns, assistantCap, map[])
  {
  }

  lemma JoinIsBody(kept: map<nat, string>, n: nat)
    ensures Join(KeptTexts(kept, n), BREAK) == Body(kept, n)
  {
  }

  lemma EmptyBody(kept: map<nat, string>, n: nat)
    requires forall i :: i in kept ==> i < n
    ensures kept == map[] ==> Body(kept, n) == ""
  {
    NothingKept(kept, n);
  }

  /**
   Every turn is shown with its speaker; the person's words and the final turn are shown whole, and of
   other narration what is within the cap, and beyond it the cap's characters and an ellipsis.
   */
  lemma RenderedShows(turns: seq<Turn>, i: nat, assistantCap: nat)
    requires i < |turns|
    ensures var text, r := turns[i].text, Rendered(turns, i, assistantCap);
      && (turns[i].role == User ==> r == "User: " + text)
      && (turns[i].role == Assistant && (i == |turns| - 1 || |text| <= assistantCap) ==> r == "Assistant: " + text)
      && (turns[i].role == Assistant && i < |turns| - 1 && |text| > assistantCap ==> r == "Assistant: " + Clip(text, assistantCap) + ELLIPSIS)
  {
    assert "User" + ": " == "User: " && "Assistant" + ": " == "Assistant: ";
    var text := turns[i].text;
    if |text| > assistantCap {
      assert "Assistant: " + (text[..assistantCap] + ELLIPSIS) == "Assistant: " + text[..assistantCap] + ELLIPSIS;
    }
  }
}
