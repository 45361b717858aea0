/**
 The one shared confirmation sheet (public/js/confirm-sheet.js).

 The sheet is a single element that successive questions reuse, and its actions are asynchronous:
 an action can still be running when its question has long been closed or replaced.  The class is
 the module with its fields; Step gives the effect of every entry point on the module's state, and
 the results at the end hold for every interleaving of them.
 */
module ConfirmSheet {
  import opened Options

  /** What the sheet does to the world outside, in order. */
  datatype Effect =
    | Opened(question: nat, hasClose: bool)
    | CloseCalled(question: nat)
    | Started(question: nat, checked: bool)
    | Settled(question: nat)
    | Focused(element: nat)

  /**
   The module's state.  A question is named by its generation; `action` and `close` name the
   question whose onConfirm and onClose are pending.
   */
  datatype State = State(
    open: bool, action: Option<nat>, close: Option<nat>, generation: nat, running: set<nat>,
    disabled: bool, caption: string, checked: bool, returnFocus: Option<nat>, log: seq<Effect>)

  const INITIAL := State(false, None, None, 0, {}, false, "", false, None, [])

  /** The entry points: the opener, the user, and the handles and outcomes of running actions. */
  datatype Call =
    | Open(caption: string, hasClose: bool, focus: nat)
    | Close
    | Tick(value: bool)
    | Accept
    | Done(question: nat)
    | Progress(question: nat, text: string)
    | Succeed(question: nat)
    | Fail(question: nat)

  /** The outgoing question's onClose, if it is still owed one. */
  function ClosingEffect(s: State): seq<Effect> {
    if s.close.Some? then [CloseCalled(s.close.value)] else []
  }

  function Dismissed(s: State): State {
    s.(open := false, action := None, close := None, returnFocus := None,
       log := s.log + (if s.returnFocus.Some? then [Focused(s.returnFocus.value)] else []) + ClosingEffect(s))
  }

  function OpenedFor(s: State, caption: string, hasClose: bool, focus: nat): State {
    var g := s.generation + 1;
    s.(open := true, action := Some(g), close := if hasClose then Some(g) else None, generation := g,
       disabled := false, caption := caption, checked := false,
       returnFocus := if s.open then s.returnFocus else Some(focus),
       log := s.log + ClosingEffect(s) + [Opened(g, hasClose)])
  }

  function Step(s: State, call: Call): State {
    match call
    case Open(caption, hasClose, focus) => OpenedFor(s, caption, hasClose, focus)
    case Close => Dismissed(s)
    case Tick(value) => s.(checked := value)
    case Accept =>
      if s.generation in s.running || s.action.None? then s
      else s.(running := s.running + {s.generation}, disabled := true, log := s.log + [Started(s.generation, s.checked)])
    case Done(g) => if g == s.generation then Dismissed(s) else s
    case Progress(g, text) => if g == s.generation then s.(caption := text) else s
    case Succeed(g) => s.(running := s.running - {g}, log := s.log + [Settled(g)])
    case Fail(g) =>
      s.(running := s.running - {g}, disabled := if g == s.generation then false else s.disabled, log := s.log + [Settled(g)])
  }

  /** Only a running action has an outcome; its handles exist once it was started, for good. */
  predicate Possible(s: State, call: Call) {
    match call
    case Succeed(g) => g in s.running
    case Fail(g) => g in s.running
    case Done(g) => exists i :: 0 <= i < |s.log| && s.log[i].Started? && s.log[i].question == g
    case Progress(g, _) => exists i :: 0 <= i < |s.log| && s.log[i].Started? && s.log[i].question == g
    case _ => true
  }

  // ── The module ────────────────────────────────────────────────────────────

  class Sheet {
    var open: bool
    var pendingConfirmAction: Option<nat>
    var pendingConfirmClose: Option<nat>
    var confirmGeneration: nat
    var runningConfirmActions: set<nat>
    var acceptDisabled: bool
    var acceptLabel: string
    var checkbox: bool
    var confirmReturnFocus: Option<nat>
    var log: seq<Effect>

    ghost function Now(): State
      reads this
    {
      State(open, pendingConfirmAction, pendingConfirmClose, confirmGeneration, runningConfirmActions,
            acceptDisabled, acceptLabel, checkbox, confirmReturnFocus, log)
    }

    constructor ()
      ensures Now() == INITIAL
    {
      open, pendingConfirmAction, pendingConfirmClose, confirmGeneration := false, None, None, 0;
      runningConfirmActions, acceptDisabled, acceptLabel := {}, false, "";
      checkbox, confirmReturnFocus, log := false, None, [];
    }

    method DismissConfirmSheet()
      modifies this
      ensures Now() == Dismissed(old(Now()))
    {
      open := false;
      var onClose := pendingConfirmClose;
      pendingConfirmAction := None;
      pendingConfirmClose := None;
      var returnTo := confirmReturnFocus;
      confirmReturnFocus := None;
      if returnTo.Some? {
        log := log + [Focused(returnTo.value)];
      }
      if onClose.Some? {
        log := log + [CloseCalled(onClose.value)];
      }
    }

    method OpenDangerConfirm(caption: string, hasClose: bool, focus: nat) returns (generation: nat)
      modifies this
      ensures Now() == Step(old(Now()), Open(caption, hasClose, focus))
      ensures generation == confirmGeneration
    {
      if pendingConfirmClose.Some? {
        var superseded := pendingConfirmClose.value;
        pendingConfirmClose := None;
        log := log + [CloseCalled(superseded)];
      }
      confirmGeneration := confirmGeneration + 1;
      generation := confirmGeneration;
      acceptLabel := caption;
      acceptDisabled := false;
      pendingConfirmAction := Some(generation);
      pendingConfirmClose := if hasClose then Some(generation) else None;
      checkbox := false;
      if !open {
        confirmReturnFocus := Some(focus);
      }
      open := true;
      log := log + [Opened(generation, hasClose)];
    }

    method CloseConfirm()
      modifies this
      ensures Now() == Step(old(Now()), Close)
    {
      DismissConfirmSheet();
    }

    /** The part of runConfirmAction up to its await; a started action gets the current generation for its handles. */
    method RunConfirmAction() returns (started: Option<nat>)
      modifies this
      ensures Now() == Step(old(Now()), Accept)
      ensures started == if Now() == old(Now()) then None else Some(confirmGeneration)
    {
      var generation := confirmGeneration;
      if generation in runningConfirmActions {
        return None;
      }
      if pendingConfirmAction.None? {
        return None;
      }
      var checked := checkbox;
      runningConfirmActions := runningConfirmActions + {generation};
      acceptDisabled := true;
      log := log + [Started(generation, checked)];
      assert |log| != |old(log)|;
      return Some(generation);
    }

    /** The handle done(), closed over its own generation. */
    method DoneHandle(generation: nat)
      modifies this
      ensures Now() == Step(old(Now()), Done(generation))
    {
      if generation == confirmGeneration {
        DismissConfirmSheet();
      }
    }

    /** The handle progress(). */
    method ProgressHandle(generation: nat, text: string)
      modifies this
      ensures Now() == Step(old(Now()), Progress(generation, text))
    {
      if generation != confirmGeneration {
        return;
      }
      acceptLabel := text;
    }

    /** The part of runConfirmAction after its await. */
    method SettleConfirmAction(generation: nat, failed: bool)
      modifies this
      ensures Now() == Step(old(Now()), if failed then Fail(generation) else Succeed(generation))
    {
      if failed && confirmGeneration == generation {
        acceptDisabled := false;
      }
      runningConfirmActions := runningConfirmActions - {generation};
      log := log + [Settled(generation)];
    }
  }

  // ── Every interleaving ────────────────────────────────────────────────────

  /** The state after some calls, in order, from the start. */
  function After(calls: seq<Call>): State {
    if calls == [] then INITIAL else Step(After(calls[..|calls| - 1]), calls[|calls| - 1])
  }

  ghost predicate Run(calls: seq<Call>) {
    forall i :: 0 <= i < |calls| ==> Possible(After(calls[..i]), calls[i])
  }

  function Count(log: seq<Effect>, e: Effect): nat {
    if log == [] then 0
    else Count(log[..|log| - 1], e) + (if log[|log| - 1] == e then 1 else 0)
  }

  function One(b: bool): nat { if b then 1 else 0 }

  function Starts(log: seq<Effect>, g: nat): nat {
    Count(log, Started(g, true)) + Count(log, Started(g, false))
  }

  lemma {:induction false} CountConcat(a: seq<Effect>, b: seq<Effect>, e: Effect)
    ensures Count(a + b, e) == Count(a, e) + Count(b, e)
  {
    if b == [] {
      assert a + b == a;
    } else {
      var s := a + b;
      assert s[..|s| - 1] == a + b[..|b| - 1];
      CountConcat(a, b[..|b| - 1], e);
    }
  }

  /** Question g was opened with an onClose of its own. */
  function WantsClose(log: seq<Effect>, g: nat): nat {
    Count(log, Opened(g, true))
  }

  ghost predicate OpenedOnce(s: State, g: nat) {
    Count(s.log, Opened(g, true)) + Count(s.log, Opened(g, false)) == One(1 <= g <= s.generation)
  }

  ghost predicate ClosedOnce(s: State, g: nat) {
    Count(s.log, CloseCalled(g)) + One(s.close == Some(g)) == WantsClose(s.log, g)
  }

  ghost predicate StartsSettled(s: State, g: nat) {
    && Starts(s.log, g) == Count(s.log, Settled(g)) + One(g in s.running)
    && (g in s.running ==> 1 <= g <= s.generation)
  }

  /** The books on one question g: openings, onClose calls, starts and settlements. */
  ghost predicate Accounted(s: State, g: nat) {
    OpenedOnce(s, g) && ClosedOnce(s, g) && StartsSettled(s, g)
  }

  ghost predicate Inv(s: State) {
    && (forall g :: Accounted(s, g))
    && s.action == (if s.open then Some(s.generation) else None)
    && (s.close.Some? ==> s.open && s.close.value == s.generation)
    && (s.open ==> s.returnFocus.Some? && s.generation >= 1)
    && (s.open && WantsClose(s.log, s.generation) == 1 ==> s.close == Some(s.generation))
    && (s.generation in s.running ==> s.disabled)
  }

  /** The effects a call appends to the log. */
  function NewEffects(s: State, call: Call): seq<Effect> {
    var focus := if s.returnFocus.Some? then [Focused(s.returnFocus.value)] else [];
    match call
    case Open(_, hasClose, _) => ClosingEffect(s) + [Opened(s.generation + 1, hasClose)]
    case Close => focus + ClosingEffect(s)
    case Done(g) => if g == s.generation then focus + ClosingEffect(s) else []
    case Accept => if s.generation in s.running || s.action.None? then [] else [Started(s.generation, s.checked)]
    case Succeed(g) => [Settled(g)]
    case Fail(g) => [Settled(g)]
    case _ => []
  }

  lemma StepAppends(s: State, call: Call)
    ensures Step(s, call).log == s.log + NewEffects(s, call)
  {
  }

  /** Counting in a log of at most two entries. */
  lemma CountShort(log: seq<Effect>, e: Effect)
    requires |log| <= 2
    ensures Count(log, e) == One(|log| > 0 && log[0] == e) + One(|log| > 1 && log[1] == e)
  {
    if |log| == 1 {
      assert log[..0] == [];
    } else if |log| == 2 {
      assert log[..1] == [log[0]];
      assert [log[0]][..0] == [];
    }
  }

  lemma CountAfter(s: State, call: Call, e: Effect)
    ensures var new' := NewEffects(s, call);
            |new'| <= 2 && Count(Step(s, call).log, e) ==
                           Count(s.log, e) + One(|new'| > 0 && new'[0] == e) + One(|new'| > 1 && new'[1] == e)
  {
    StepAppends(s, call);
    CountConcat(s.log, NewEffects(s, call), e);
    CountShort(NewEffects(s, call), e);
  }

  lemma StepKeepsOpenings(s: State, call: Call, g: nat)
    requires OpenedOnce(s, g)
    ensures OpenedOnce(Step(s, call), g)
  {
    CountAfter(s, call, Opened(g, true));
    CountAfter(s, call, Opened(g, false));
    hide Count;
  }

  lemma StepKeepsClosings(s: State, call: Call, g: nat)
    requires ClosedOnce(s, g)
    ensures ClosedOnce(Step(s, call), g)
  {
    CountAfter(s, call, Opened(g, true));
    CountAfter(s, call, CloseCalled(g));
    hide Count;
  }

  lemma StepKeepsStarts(s: State, call: Call, g: nat)
    requires StartsSettled(s, g) && Possible(s, call)
    requires s.action.Some? ==> s.generation >= 1
    ensures StartsSettled(Step(s, call), g)
  {
    CountAfter(s, call, Started(g, true));
    CountAfter(s, call, Started(g, false));
    CountAfter(s, call, Settled(g));
    hide Count;
  }

  lemma StepKeepsAccount(s: State, call: Call, g: nat)
    requires Inv(s) && Possible(s, call)
    ensures Accounted(Step(s, call), g)
  {
    assert Accounted(s, g);
    hide OpenedOnce, ClosedOnce, StartsSettled;
    StepKeepsOpenings(s, call, g);
    StepKeepsClosings(s, call, g);
    StepKeepsStarts(s, call, g);
  }

  lemma StepKeepsInv(s: State, call: Call)
    requires Inv(s) && Possible(s, call)
    ensures Inv(Step(s, call))
  {
    var s' := Step(s, call);
    assert Accounted(s, s.generation) && Accounted(s, s.generation + 1);
    forall g ensures Accounted(s', g) {
      StepKeepsAccount(s, call, g);
    }
    CountAfter(s, call, Opened(s'.generation, true));
    hide Accounted, Count;
  }

  /** Every state reached by any interleaving of calls satisfies the invariant. */
  lemma {:induction false} RunKeepsInv(calls: seq<Call>)
    requires Run(calls)
    ensures Inv(After(calls))
  {
    if calls != [] {
      var before := calls[..|calls| - 1];
      assert forall i :: 0 <= i < |before| ==> before[..i] == calls[..i];
      assert forall i :: 0 <= i < |before| ==> Possible(After(calls[..i]), calls[i]);
      RunKeepsInv(before);
      assert Possible(After(calls[..|calls| - 1]), calls[|calls| - 1]);
      StepKeepsInv(After(before), calls[|calls| - 1]);
    }
  }

  // ── What the invariant says about any run ─────────────────────────────────

  /**
   onClose runs exactly once: by the time a question has been closed or replaced it has run, and
   while the question is on screen it has not.
   */
  lemma CloseRunsOnce(calls: seq<Call>, g: nat)
    requires Run(calls) && 1 <= g <= After(calls).generation
    ensures var s := After(calls);
            var onScreen := s.open && g == s.generation;
            Count(s.log, CloseCalled(g)) == if WantsClose(s.log, g) == 1 && !onScreen then 1 else 0
    ensures WantsClose(After(calls).log, g) <= 1
  {
    RunKeepsInv(calls);
    assert Accounted(After(calls), g);
  }

  /** One question's action is never in flight twice: its starts are settled but for at most one. */
  lemma OneActionInFlight(calls: seq<Call>, g: nat)
    requires Run(calls)
    ensures var s := After(calls);
            Starts(s.log, g) == Count(s.log, Settled(g)) + One(g in s.running)
  {
    RunKeepsInv(calls);
    assert Accounted(After(calls), g);
  }

  /** While the action of the question on screen runs, its accept button is held down. */
  lemma ButtonIsHeldDown(calls: seq<Call>)
    requires Run(calls)
    ensures var s := After(calls); s.generation in s.running ==> s.disabled
  {
    RunKeepsInv(calls);
  }

  /** A failed action gives the button back, and accepting again starts a new attempt. */
  lemma FailureCanBeRetried(calls: seq<Call>)
    requires Run(calls) && After(calls).open && After(calls).generation in After(calls).running
    ensures var s := After(calls);
            var failed := Step(s, Fail(s.generation));
            && !failed.disabled && failed.open
            && Step(failed, Accept).log == failed.log + [Started(s.generation, s.checked)]
  {
    RunKeepsInv(calls);
    Retried(After(calls));
  }

  lemma Retried(s: State)
    requires s.open && s.action.Some?
    ensures var failed := Step(s, Fail(s.generation));
            && !failed.disabled && failed.open
            && Step(failed, Accept).log == failed.log + [Started(s.generation, s.checked)]
  {
  }

  function Steps(s: State, calls: seq<Call>): State {
    if calls == [] then s else Step(Steps(s, calls[..|calls| - 1]), calls[|calls| - 1])
  }

  /** A handle call or an outcome of a question asked before question g. */
  predicate OfEarlierQuestion(call: Call, g: nat) {
    match call
    case Done(q) => q < g
    case Progress(q, _) => q < g
    case Succeed(q) => q < g
    case Fail(q) => q < g
    case _ => false
  }

  /**
   Actions of earlier questions, however many and however interleaved, change nothing about the
   question on screen: all that remains of them is the record that they settled.
   */
  lemma {:induction false} EarlierActionsAreInert(s: State, calls: seq<Call>)
    requires forall i :: 0 <= i < |calls| ==> OfEarlierQuestion(calls[i], s.generation)
    ensures var s' := Steps(s, calls);
            && s' == s.(running := s'.running, log := s'.log)
            && (s.generation in s'.running <==> s.generation in s.running)
            && s.log <= s'.log && forall i :: |s.log| <= i < |s'.log| ==> s'.log[i].Settled?
  {
    if calls != [] {
      EarlierActionsAreInert(s, calls[..|calls| - 1]);
    }
  }

  /**
   Focus goes back to where it was before the sheet came up, however often the question was
   replaced in between.
   */
  lemma {:induction false} FocusReturnsToThePage(s: State, caption: string, hasClose: bool, focus: nat, calls: seq<Call>)
    requires !s.open
    requires forall i :: 0 <= i <= |calls| ==> Steps(Step(s, Open(caption, hasClose, focus)), calls[..i]).open
    ensures var s' := Steps(Step(s, Open(caption, hasClose, focus)), calls);
            s'.returnFocus == Some(focus) && Step(s', Close).log[|s'.log|] == Focused(focus)
  {
    if calls != [] {
      var before := calls[..|calls| - 1];
      var shown := Step(s, Open(caption, hasClose, focus));
      forall i | 0 <= i <= |before| ensures Steps(shown, before[..i]).open {
        assert before[..i] == calls[..i];
      }
      FocusReturnsToThePage(s, caption, hasClose, focus, before);
      assert calls[..|calls|] == calls;
    }
  }

  /** A question starts unticked, and stays so until its own user ticks it. */
  lemma {:induction false} TickIsNotInherited(s: State, caption: string, hasClose: bool, focus: nat, calls: seq<Call>)
    requires forall i :: 0 <= i < |calls| ==> !calls[i].Tick?
    ensures !Steps(Step(s, Open(caption, hasClose, focus)), calls).checked
  {
    if calls != [] {
      TickIsNotInherited(s, caption, hasClose, focus, calls[..|calls| - 1]);
    }
  }

  /** A question comes up with its caption, its button free and its tick off, and owns the sheet alone. */
  lemma QuestionComesUp(s: State, caption: string, hasClose: bool, focus: nat)
    ensures var t := Step(s, Open(caption, hasClose, focus));
      && t.open && t.caption == caption && !t.disabled && !t.checked && t.generation > s.generation
      && t.action == Some(t.generation) && (t.close == Some(t.generation) <==> hasClose) && t.running == s.running
      && (s.close.Some? ==> CloseCalled(s.close.value) in t.log[|s.log|..])
  {
    var t := Step(s, Open(caption, hasClose, focus));
    assert t.log[|s.log|..] == ClosingEffect(s) + [Opened(t.generation, hasClose)];
    if s.close.Some? {
      assert t.log[|s.log|..][0] == CloseCalled(s.close.value);
    }
  }

  /**
   What the handles of the question on screen do: done takes the question down, gives the focus back
   and calls its onClose if it has one; progress changes the button's words and nothing else.
   */
  ghost predicate HandlesWork(s: State, text: string) {
    var done := Step(s, Done(s.generation));
    && !done.open && done.action == None && done.close == None && done.generation == s.generation && done.running == s.running
    && s.returnFocus.Some? && s.log <= done.log && Focused(s.returnFocus.value) in done.log[|s.log|..]
    && (CloseCalled(s.generation) in done.log[|s.log|..] <==> WantsClose(s.log, s.generation) == 1)
    && Step(s, Progress(s.generation, text)) == s.(caption := text)
  }

  /** In every run the handles of the action on screen work. */
  lemma HandlesOfCurrentAct(calls: seq<Call>, text: string)
    requires Run(calls) && After(calls).open
    ensures HandlesWork(After(calls), text)
  {
    RunKeepsInv(calls);
    hide *;
    HandlesOfCurrent(After(calls), text);
  }

  lemma HandlesOfCurrent(s: State, text: string)
    requires Inv(s) && s.open
    ensures HandlesWork(s, text)
  {
    var done := Step(s, Done(s.generation));
    var behind := done.log[|s.log|..];
    assert behind == [Focused(s.returnFocus.value)] + ClosingEffect(s);
    assert behind[0] == Focused(s.returnFocus.value);
    assert Accounted(s, s.generation);
    hide Count;
    if s.close.Some? {
      assert behind[1] == CloseCalled(s.generation);
    }
  }

  predicate LeavesTick(call: Call) {
    !call.Open? && !call.Tick?
  }

  /** The action is told the tick as the user set it last. */
  lemma {:induction false} TickReachesTheAction(s: State, value: bool, calls: seq<Call>)
    requires forall i :: 0 <= i < |calls| ==> LeavesTick(calls[i])
    ensures var t := Steps(Step(s, Tick(value)), calls);
      && t.checked == value && t.generation == s.generation
      && (t.action.Some? && t.generation !in t.running ==> Step(t, Accept).log == t.log + [Started(s.generation, value)])
  {
    if calls != [] {
      TickReachesTheAction(s, value, calls[..|calls| - 1]);
    }
  }

  /** A button that is held down comes back only with a new question or with a failure of the current one's action. */
  lemma {:induction false} ButtonComesBackOnlyBy(s: State, calls: seq<Call>)
    requires s.disabled && forall i :: 0 <= i < |calls| ==> !calls[i].Open? && calls[i] != Fail(s.generation)
    ensures Steps(s, calls).disabled && Steps(s, calls).generation == s.generation
  {
    if calls != [] {
      ButtonComesBackOnlyBy(s, calls[..|calls| - 1]);
    }
  }
}
