/**
 The rebuild flow of the settings window (installer/src/settings.ts).

 The window drives a rebuild batch by batch.  Every entry point runs up to its next await and is
 resumed by an answer, so entry points interleave.  Step gives the effect of each such stretch;
 Window.StepLoop is the batch loop itself as it runs when nothing else is pressed but pause, against
 an arbitrary Worker.
 */
module Migration {
  import opened Options

  datatype Phase =
    | Unloaded | Loading | LoadFailed | Idle | Confirm | Starting | Running | Paused
    | StalledBudget | StalledFailing | Stuck | Failed | Interrupted | Resetting
    | Finished | Freeing | Freed

  /** One answer of the Worker to a batch; `budget` tells a spent allowance from any other stall. */
  datatype Answer = Error | Batch(done: bool, stalled: bool, budget: bool, remaining: int, total: int, failed: nat)

  datatype Progress = Progress(done: int, total: int, failed: nat)

  /** A batch loop in flight waits for a batch, or, having finished, for the name of what is left over. */
  datatype Loop = AwaitingStep(last: int, idle: nat) | AwaitingRefresh

  /** `naming` counts the loads of a finished run that still wait for the name of what is left over. */
  datatype State = State(
    phase: Phase, back: Phase, looping: bool, pauseRequested: bool, progress: Option<Progress>,
    oldIndex: Option<string>, loops: seq<Loop>, naming: nat)

  const INITIAL := State(Unloaded, Idle, false, false, None, None, [], 0)

  predicate Busy(phase: Phase) {
    phase == Starting || phase == Running || phase == Freeing || phase == Resetting
  }

  datatype Call =
    | OpenPane
    | Loaded(run: Phase, progress: Option<Progress>)
    | Named(oldIndex: Option<string>)
    | LoadingFailed
    | TryAgain
    | PickTarget
    | Cancel
    | Begin(empty: bool)
    | BeginAnswered(ok: bool)
    | Resume
    | Restart
    | ResetAnswered(ok: bool)
    | Pause
    | StepAnswered(at: nat, answer: Answer)
    | Refreshed(at: nat, oldIndex: Option<string>)
    | ChangeAgain
    | Free
    | FreeAnswered(ok: bool)

  /** stepLoop as called: it does nothing beside a loop in flight, otherwise it asks for a batch. */
  function Entered(s: State): State {
    if s.looping then s else s.(looping := true, loops := s.loops + [AwaitingStep(-1, 0)])
  }

  function Max(a: int, b: int): int { if a >= b then a else b }

  function Without<T>(s: seq<T>, at: nat): seq<T>
    requires at < |s|
  {
    s[..at] + s[at + 1..]
  }

  function Ended(s: State, at: nat, phase: Phase): State
    requires at < |s.loops|
  {
    s.(phase := phase, looping := false, loops := Without(s.loops, at))
  }

  /** The loop body after its await, for the loop at `at`. */
  function Answered(s: State, at: nat, answer: Answer): State
    requires at < |s.loops| && s.loops[at].AwaitingStep?
  {
    if answer.Error? then Ended(s, at, Failed)
    else
      var s1 := s.(progress := Some(Progress(Max(0, answer.total - answer.remaining), answer.total, answer.failed)));
      if answer.done then s1.(phase := Finished, loops := s.loops[at := AwaitingRefresh])
      else if answer.stalled then Ended(s1, at, if answer.budget then StalledBudget else StalledFailing)
      else if s.pauseRequested then Ended(s1.(pauseRequested := false), at, Paused)
      else
        var idle := if answer.remaining == s.loops[at].last then s.loops[at].idle + 1 else 0;
        if idle >= 2 then Ended(s1, at, Stuck)
        else s1.(loops := s.loops[at := AwaitingStep(answer.remaining, idle)])
  }

  function Step(s: State, call: Call): State
    requires Possible(s, call)
  {
    match call
    case OpenPane => s.(phase := Loading)
    case Loaded(run, progress) => s.(phase := run, progress := progress, naming := s.naming + if run == Finished then 1 else 0)
    case Named(oldIndex) => s.(oldIndex := oldIndex, naming := s.naming - 1)
    case LoadingFailed => s.(phase := LoadFailed)
    case TryAgain => s.(phase := Unloaded)
    case PickTarget => s.(phase := Confirm)
    case Cancel => s.(phase := Idle)
    case Begin(empty) => if Busy(s.phase) then s else s.(phase := Starting, back := if empty then Idle else Confirm)
    case BeginAnswered(ok) =>
      if ok then Entered(s.(phase := Running, progress := None, pauseRequested := false)) else s.(phase := s.back)
    case Resume => if Busy(s.phase) then s else Entered(s.(phase := Running, pauseRequested := false))
    case Restart => if Busy(s.phase) then s else s.(phase := Resetting, back := s.phase)
    case ResetAnswered(ok) =>
      if ok then Entered(s.(phase := Running, progress := None, pauseRequested := false)) else s.(phase := s.back)
    case Pause => s.(pauseRequested := true)
    case StepAnswered(at, answer) => Answered(s, at, answer)
    case Refreshed(at, oldIndex) => s.(oldIndex := oldIndex, looping := false, loops := Without(s.loops, at))
    case ChangeAgain => s.(phase := Loading)
    case Free => if s.oldIndex.None? || Busy(s.phase) then s else s.(phase := Freeing)
    case FreeAnswered(ok) => if ok then s.(phase := Freed, oldIndex := None) else s.(phase := Finished)
  }

  /** Answers come to requests in flight, and buttons are those of the screen for the current phase. */
  predicate Possible(s: State, call: Call) {
    match call
    case OpenPane => s.phase == Unloaded
    case Loaded(run, _) => s.phase == Loading && (run == Idle || run == Finished || run == Interrupted)
    case Named(_) => s.naming > 0
    case LoadingFailed => s.phase == Loading
    case TryAgain => s.phase == LoadFailed
    case PickTarget => s.phase == Idle
    case Cancel => s.phase == Confirm
    case Begin(empty) => s.phase == (if empty then Idle else Confirm)
    case BeginAnswered(_) => s.phase == Starting
    case Resume =>
      s.phase == Paused || s.phase == StalledBudget || s.phase == StalledFailing || s.phase == Stuck
      || s.phase == Interrupted || s.phase == Failed
    case Restart => s.phase == StalledFailing || s.phase == Stuck || s.phase == Interrupted
    case ResetAnswered(_) => s.phase == Resetting
    case Pause => s.phase == Running || s.loops != []
    case StepAnswered(at, _) => at < |s.loops| && s.loops[at].AwaitingStep?
    case Refreshed(at, _) => at < |s.loops| && s.loops[at].AwaitingRefresh?
    case ChangeAgain => s.phase == Finished || s.phase == Freed
    case Free => s.phase == Finished
    case FreeAnswered(_) => s.phase == Freeing
  }

  // ── Every interleaving ────────────────────────────────────────────────────

  /** At most one loop, flagged by `looping`; batches are in flight only in the running phase. */
  ghost predicate Inv(s: State) {
    && |s.loops| == (if s.looping then 1 else 0)
    && (forall i :: 0 <= i < |s.loops| && s.loops[i].AwaitingStep? ==> s.phase == Running && s.loops[i].idle <= 1)
    && (s.phase == Resetting ==> !Busy(s.back))
    && (s.phase == Starting ==> !Busy(s.back))
  }

  lemma AnsweredKeepsInv(s: State, at: nat, answer: Answer)
    requires Inv(s) && at < |s.loops| && s.loops[at].AwaitingStep?
    ensures Inv(Answered(s, at, answer))
  {
  }

  lemma StepKeepsInv(s: State, call: Call)
    requires Inv(s) && Possible(s, call)
    ensures Inv(Step(s, call))
  {
    hide Answered;
    if call.StepAnswered? {
      AnsweredKeepsInv(s, call.at, call.answer);
    }
  }

  ghost predicate Run(states: seq<State>, calls: seq<Call>) {
    && |states| == |calls| + 1 && states[0] == INITIAL
    && forall i :: 0 <= i < |calls| ==> Possible(states[i], calls[i]) && states[i + 1] == Step(states[i], calls[i])
  }

  lemma {:induction false} RunKeepsInv(states: seq<State>, calls: seq<Call>, n: nat)
    requires Run(states, calls) && n <= |calls|
    ensures Inv(states[n])
  {
    if n > 0 {
      RunKeepsInv(states, calls, n - 1);
      StepKeepsInv(states[n - 1], calls[n - 1]);
    }
  }

  /**
   Two loops never run at once, and a batch is never in flight beside a begin, a reset or a free,
   whose answers are awaited in phases of their own.
   */
  lemma OneLoopAtATime(states: seq<State>, calls: seq<Call>, n: nat)
    requires Run(states, calls) && n <= |calls|
    ensures |states[n].loops| <= 1
    ensures forall loop :: loop in states[n].loops && loop.AwaitingStep? ==> states[n].phase == Running
  {
    RunKeepsInv(states, calls, n);
  }

  // ── When the running screen has no loop behind it ─────────────────────────

  /** The running phase is driven by a loop that waits for a batch. */
  ghost predicate Driven(s: State) {
    s.phase == Running ==> exists i :: 0 <= i < |s.loops| && s.loops[i].AwaitingStep?
  }

  /** The calls that enter the running phase. */
  predicate Launches(call: Call) {
    call.Resume? || (call.BeginAnswered? && call.ok) || (call.ResetAnswered? && call.ok)
  }

  /**
   A step leaves the running phase without a loop exactly when it launches one while `looping` is
   still set: stepLoop then returns at once.
   */
  lemma LaunchIsLostExactly(s: State, call: Call)
    requires Inv(s) && Driven(s) && Possible(s, call)
    ensures !Driven(Step(s, call)) <==> Launches(call) && s.looping
  {
    if Launches(call) {
      LaunchDrives(s, call);
    } else if call.StepAnswered? {
      AnswerDrives(s, call.at, call.answer);
    } else if s.phase == Running {
      var i :| 0 <= i < |s.loops| && s.loops[i].AwaitingStep?;
      assert !call.Refreshed?;
      assert Step(s, call).loops == s.loops;
    }
  }

  lemma LaunchDrives(s: State, call: Call)
    requires Inv(s) && Possible(s, call) && Launches(call)
    ensures Driven(Step(s, call)) <==> !s.looping
  {
    var s' := Step(s, call);
    if !s.looping {
      assert s'.loops[|s'.loops| - 1].AwaitingStep?;
    } else {
      assert s'.loops == s.loops && s.phase != Running;
    }
  }

  lemma AnswerDrives(s: State, at: nat, answer: Answer)
    requires at < |s.loops| && s.loops[at].AwaitingStep? && s.phase == Running
    ensures Driven(Answered(s, at, answer))
  {
    var s' := Answered(s, at, answer);
    if s'.phase == Running {
      assert s'.loops[at].AwaitingStep?;
    }
  }

  lemma RunExtends(states: seq<State>, calls: seq<Call>, s: State, call: Call, s': State)
    returns (states': seq<State>, calls': seq<Call>)
    requires Run(states, calls) && states[|calls|] == s
    requires Possible(s, call) && s' == Step(s, call)
    ensures Run(states', calls') && states'[|calls'|] == s' && calls' == calls + [call]
  {
    states', calls' := states + [s'], calls + [call];
  }

  /** After a reload of a finished run what it left over can be freed, once its name has come. */
  lemma FreedAfterReload(progress: Option<Progress>, name: string) returns (states: seq<State>, calls: seq<Call>)
    ensures Run(states, calls) && states[|calls|].phase == Freed && states[|calls|].oldIndex == None
    ensures calls == [OpenPane, Loaded(Finished, progress), Named(Some(name)), Free, FreeAnswered(true)]
  {
    var loading := INITIAL.(phase := Loading);
    var finished := loading.(phase := Finished, progress := progress);
    var named := finished.(oldIndex := Some(name));
    NothingRun();
    states, calls := RunExtends([INITIAL], [], INITIAL, OpenPane, loading);
    states, calls := RunExtends(states, calls, loading, Loaded(Finished, progress), finished.(naming := 1));
    states, calls := RunExtends(states, calls, finished.(naming := 1), Named(Some(name)), named);
    states, calls := FreeRuns(states, calls, named);
  }

  lemma FreeRuns(states: seq<State>, calls: seq<Call>, s: State) returns (states': seq<State>, calls': seq<Call>)
    requires Run(states, calls) && states[|calls|] == s && s.phase == Finished && s.oldIndex.Some?
    ensures Run(states', calls') && states'[|calls'|].phase == Freed && states'[|calls'|].oldIndex == None
    ensures calls' == calls + [Free, FreeAnswered(true)]
  {
    var freeing := s.(phase := Freeing);
    states', calls' := RunExtends(states, calls, s, Free, freeing);
    states', calls' := RunExtends(states', calls', freeing, FreeAnswered(true), freeing.(phase := Freed, oldIndex := None));
  }

  /**
   Such a state is reached: the finished loop still waits for its refresh, one local call, while a
   new rebuild begins.
   */
  lemma LaunchCanBeLost() returns (states: seq<State>, calls: seq<Call>)
    ensures Run(states, calls) && !Driven(states[|calls|])
  {
    var resumed := INITIAL.(phase := Running, looping := true, loops := [AwaitingStep(-1, 0)]);
    var finished := resumed.(phase := Finished, progress := Some(Progress(5, 5, 0)), loops := [AwaitingRefresh]);
    var lost := finished.(phase := Running, back := Confirm, progress := None);
    states, calls := RunToFinish(resumed, finished);
    assert !Driven(lost);
    assert lost == Step(lost.(phase := Starting), BeginAnswered(true));
    assert Possible(lost.(phase := Starting), BeginAnswered(true));
    hide *;
    states, calls := RunToBegin(states, calls, finished);
    states, calls := RunExtends(states, calls, lost.(phase := Starting), BeginAnswered(true), lost);
  }

  lemma RunToFinish(resumed: State, finished: State) returns (states: seq<State>, calls: seq<Call>)
    requires resumed == INITIAL.(phase := Running, looping := true, loops := [AwaitingStep(-1, 0)])
    requires finished == resumed.(phase := Finished, progress := Some(Progress(5, 5, 0)), loops := [AwaitingRefresh])
    ensures Run(states, calls) && states[|calls|] == finished
  {
    hide Run;
    NothingRun();
    states, calls := [INITIAL], [];
    var loading, interrupted := INITIAL.(phase := Loading), INITIAL.(phase := Interrupted);
    var answer := StepAnswered(0, Batch(true, false, false, 0, 5, 0));
    assert Step(interrupted, Resume) == resumed;
    assert Step(resumed, answer) == finished;
    states, calls := RunExtends(states, calls, INITIAL, OpenPane, loading);
    states, calls := RunExtends(states, calls, loading, Loaded(Interrupted, None), interrupted);
    states, calls := RunExtends(states, calls, interrupted, Resume, resumed);
    states, calls := RunExtends(states, calls, resumed, answer, finished);
  }

  lemma RunToBegin(states0: seq<State>, calls0: seq<Call>, s: State) returns (states: seq<State>, calls: seq<Call>)
    requires Run(states0, calls0) && states0[|calls0|] == s && s.phase == Finished
    ensures Run(states, calls)
    ensures states[|calls|] == s.(phase := Starting, back := Confirm, progress := None)
  {
    hide Run;
    var idle := s.(phase := Idle, progress := None);
    states, calls := RunExtends(states0, calls0, s, ChangeAgain, s.(phase := Loading));
    states, calls := RunExtends(states, calls, s.(phase := Loading), Loaded(Idle, None), idle);
    states, calls := RunExtends(states, calls, idle, PickTarget, idle.(phase := Confirm));
    states, calls := RunExtends(states, calls, idle.(phase := Confirm), Begin(false),
                                idle.(phase := Starting, back := Confirm));
  }

  lemma NothingRun()
    ensures Run([INITIAL], [])
  {
  }

  lemma LostStaysLost(s: State, call: Call)
    requires !Driven(s) && Possible(s, call)
    ensures !Driven(Step(s, call))
  {
    var s' := Step(s, call);
    forall i | 0 <= i < |s'.loops| ensures !s'.loops[i].AwaitingStep? {
      if call.Refreshed? {
        assert s'.loops[i] == if i < call.at then s.loops[i] else s.loops[i + 1];
      } else {
        assert s'.loops == s.loops;
      }
    }
  }

  /** And it is never left: no later call, however many, brings a loop or another phase. */
  lemma {:induction false} LostForever(states: seq<State>, calls: seq<Call>, from: nat, n: nat)
    requires Run(states, calls) && from <= n <= |calls|
    requires !Driven(states[from])
    ensures !Driven(states[n])
    decreases n
  {
    if n > from {
      LostForever(states, calls, from, n - 1);
      assert Possible(states[n - 1], calls[n - 1]);
      hide Driven, Step, Possible;
      LostStaysLost(states[n - 1], calls[n - 1]);
    }
  }

  // ── Begin, start over and free, each with its answer ──────────────────────

  predicate IsRequest(call: Call) {
    call.Begin? || call.Restart? || call.Free?
  }

  /** The answer to the request that the phase waits for. */
  function AnswerIn(phase: Phase, ok: bool): Option<Call> {
    match phase
    case Starting => Some(BeginAnswered(ok))
    case Resetting => Some(ResetAnswered(ok))
    case Freeing => Some(FreeAnswered(ok))
    case _ => None
  }

  predicate IsAnswer(call: Call) {
    call.BeginAnswered? || call.ResetAnswered? || call.FreeAnswered?
  }

  lemma WaitingGoesOn(s: State, call: Call)
    requires Inv(s) && Possible(s, call) && AnswerIn(s.phase, true).Some? && !IsAnswer(call)
    ensures Step(s, call).phase == s.phase && Step(s, call).back == s.back
  {
    assert forall i :: 0 <= i < |s.loops| ==> !s.loops[i].AwaitingStep?;
  }

  /** Between a request and its answer nothing else moves the window to another phase. */
  lemma {:induction false} WaitingIsKept(states: seq<State>, calls: seq<Call>, from: nat, n: nat)
    requires Run(states, calls) && from <= n <= |calls| && AnswerIn(states[from].phase, true).Some?
    requires forall i :: from <= i < n ==> !IsAnswer(calls[i])
    ensures states[n].phase == states[from].phase && states[n].back == states[from].back
    decreases n
  {
    if n > from {
      WaitingIsKept(states, calls, from, n - 1);
      RunKeepsInv(states, calls, n - 1);
      assert Possible(states[n - 1], calls[n - 1]) && states[n] == Step(states[n - 1], calls[n - 1]);
      hide Step, Inv, Possible, AnswerIn, IsAnswer;
      WaitingGoesOn(states[n - 1], calls[n - 1]);
    }
  }

  /**
   A request is answered once, whatever else happens meanwhile: refused, the window is back on the
   screen that made it; granted, a rebuild runs with nothing to show and no pause pending, and freed
   data has no name left.
   */
  lemma RequestIsAnswered(states: seq<State>, calls: seq<Call>, from: nat, n: nat, ok: bool)
    requires Run(states, calls) && from < n < |calls| && IsRequest(calls[from]) && states[from + 1].phase != states[from].phase
    requires forall i :: from < i < n ==> !IsAnswer(calls[i])
    requires IsAnswer(calls[n]) && calls[n].ok == ok
    ensures Some(calls[n]) == AnswerIn(states[from + 1].phase, ok)
    ensures !ok ==> states[n + 1].phase == states[from].phase
    ensures ok && calls[from].Free? ==> states[n + 1].phase == Freed && states[n + 1].oldIndex == None
    ensures ok && !calls[from].Free? ==>
      states[n + 1].phase == Running && states[n + 1].progress == None && !states[n + 1].pauseRequested
  {
    assert Possible(states[from], calls[from]) && states[from + 1] == Step(states[from], calls[from]);
    WaitingIsKept(states, calls, from + 1, n);
    assert Possible(states[n], calls[n]) && states[n + 1] == Step(states[n], calls[n]);
    hide Answered, Run;
  }

  // ── Pause ─────────────────────────────────────────────────────────────────

  /** A pause stays pending while the rebuild runs and no batch is answered. */
  lemma {:induction false} PauseStaysPending(states: seq<State>, calls: seq<Call>, from: nat, n: nat)
    requires Run(states, calls) && from < n <= |calls| && calls[from].Pause? && states[from].phase == Running
    requires forall i :: from < i < n ==> !calls[i].StepAnswered?
    ensures states[n].phase == Running && states[n].pauseRequested
    decreases n
  {
    assert Possible(states[n - 1], calls[n - 1]) && states[n] == Step(states[n - 1], calls[n - 1]);
    if n > from + 1 {
      PauseStaysPending(states, calls, from, n - 1);
    }
  }

  /** Pause takes effect with the next batch: unless that one ends the loop itself, the rebuild stands still, without a loop. */
  lemma PauseTakesEffect(states: seq<State>, calls: seq<Call>, from: nat, n: nat, at: nat, answer: Answer)
    requires Run(states, calls) && from < n < |calls| && calls[from].Pause? && states[from].phase == Running
    requires forall i :: from < i < n ==> !calls[i].StepAnswered?
    requires calls[n] == StepAnswered(at, answer) && answer.Batch? && !answer.done && !answer.stalled
    ensures states[n + 1].phase == Paused && states[n + 1].loops == [] && !states[n + 1].looping
  {
    PauseStaysPending(states, calls, from, n);
    RunKeepsInv(states, calls, n);
    assert Possible(states[n], calls[n]) && states[n + 1] == Step(states[n], calls[n]);
    hide Run;
  }

  lemma {:induction false} NoPausePending(states: seq<State>, calls: seq<Call>, from: nat, n: nat)
    requires Run(states, calls) && from < n <= |calls| && Launches(calls[from])
    requires forall i :: from < i < n ==> !calls[i].Pause?
    ensures !states[n].pauseRequested
    decreases n
  {
    assert Possible(states[n - 1], calls[n - 1]) && states[n] == Step(states[n - 1], calls[n - 1]);
    if n > from + 1 {
      NoPausePending(states, calls, from, n - 1);
    }
  }

  /** And only a pause does that: one pressed before the rebuild was last begun, resumed or started over has no effect. */
  lemma OldPauseIsForgotten(states: seq<State>, calls: seq<Call>, from: nat, n: nat)
    requires Run(states, calls) && from < n < |calls| && Launches(calls[from])
    requires (forall i :: from < i < n ==> !calls[i].Pause?) && calls[n].StepAnswered?
    ensures states[n + 1].phase != Paused
  {
    NoPausePending(states, calls, from, n);
    RunKeepsInv(states, calls, n);
    assert Possible(states[n], calls[n]) && states[n + 1] == Step(states[n], calls[n]);
    hide Run;
  }

  // ── The batch loop run against an arbitrary Worker ────────────────────────

  /** Batch i is the third in a row to report the same remaining count. */
  predicate ThirdAlike(answers: nat -> Answer, i: nat) {
    && i >= 2 && answers(i).Batch? && answers(i - 1).Batch? && answers(i - 2).Batch?
    && answers(i).remaining == answers(i - 1).remaining == answers(i - 2).remaining
  }

  /** What ends the loop at batch i, or Running if it goes on. */
  function EndAt(answers: nat -> Answer, pausedDuring: nat -> bool, i: nat): Phase {
    var answer := answers(i);
    if answer.Error? then Failed
    else if answer.done then Finished
    else if answer.stalled then (if answer.budget then StalledBudget else StalledFailing)
    else if pausedDuring(i) then Paused
    else if ThirdAlike(answers, i) then Stuck
    else Running
  }

  /** What a loop that waits for batch i remembers of the batches before. */
  ghost predicate Remembers(loop: Loop, answers: nat -> Answer, i: nat) {
    && loop.AwaitingStep? && (i == 0 ==> loop.last == -1 && loop.idle == 0)
    && (i > 0 ==>
          && answers(i - 1).Batch? && loop.last == answers(i - 1).remaining
          && loop.idle == if i > 1 && answers(i - 2).Batch? && answers(i - 2).remaining == loop.last then 1 else 0)
  }

  /** The loop of the interleaved model ends, or goes on remembering, exactly as the loop run alone does. */
  lemma StretchIsLoopBody(s: State, at: nat, answers: nat -> Answer, pausedDuring: nat -> bool, i: nat)
    requires at < |s.loops| && Remembers(s.loops[at], answers, i) && s.phase == Running
    requires s.pauseRequested == pausedDuring(i) && (answers(i).Batch? ==> answers(i).remaining >= 0)
    ensures var s' := Answered(s, at, answers(i));
      && s'.phase == EndAt(answers, pausedDuring, i)
      && (s'.phase == Running ==> |s'.loops| == |s.loops| && Remembers(s'.loops[at], answers, i + 1))
      && (s'.phase != Running ==> (s'.looping <==> s.looping && s'.phase == Finished))
  {
  }

  /** The remaining count starts at R at most, is never negative and never rises. */
  ghost predicate Settling(answers: nat -> Answer, R: nat) {
    && (forall i: nat :: answers(i).Batch? ==> 0 <= answers(i).remaining <= R)
    && (forall i: nat, j: nat :: i < j && answers(i).Batch? && answers(j).Batch? ==> answers(j).remaining <= answers(i).remaining)
  }

  lemma NextCount(answers: nat -> Answer, R: nat, i: nat)
    requires Settling(answers, R)
    ensures answers(i).Batch? ==> 0 <= answers(i).remaining <= R
    ensures i > 0 && answers(i - 1).Batch? && answers(i).Batch? ==> answers(i).remaining <= answers(i - 1).remaining
  {
  }

  class Window {
    var phase: Phase
    var looping: bool
    var pauseRequested: bool
    var progress: Option<Progress>

    /**
     Runs batches until one of them ends the loop; `pausedDuring(i)` says that Pause is pressed
     while batch i is in flight.
     */
    method StepLoop(answers: nat -> Answer, pausedDuring: nat -> bool, ghost R: nat) returns (calls: nat)
      requires Settling(answers, R)
      requires phase == Running && !pauseRequested
      modifies this
      ensures old(looping) ==> calls == 0 && phase == old(phase) && progress == old(progress) && looping
      ensures !old(looping) ==>
                && 1 <= calls <= 2 * R + 3
                && (forall i :: 0 <= i < calls - 1 ==> EndAt(answers, pausedDuring, i) == Running)
                && phase == EndAt(answers, pausedDuring, calls - 1) && phase != Running
                && !looping
                && (answers(calls - 1).Batch? ==> progress == Some(ProgressOf(answers(calls - 1))))
    {
      hide Settling;
      calls := 0;
      if looping {
        return;
      }
      looping := true;
      var lastRemaining := -1;
      var idleRounds := 0;
      while phase == Running
        invariant looping
        invariant phase == Running ==> !pauseRequested
        invariant forall i :: 0 <= i < calls - 1 ==> EndAt(answers, pausedDuring, i) == Running
        invariant calls == 0 ==> phase == Running && lastRemaining == -1 && idleRounds == 0
        invariant calls > 0 ==> phase == EndAt(answers, pausedDuring, calls - 1)
        invariant calls > 0 && answers(calls - 1).Batch? ==> progress == Some(ProgressOf(answers(calls - 1)))
        invariant phase == Running && calls > 0 ==>
                    && answers(calls - 1).Batch? && lastRemaining == answers(calls - 1).remaining
                    && idleRounds <= 1 && 2 * lastRemaining + calls <= 2 * R + 1 + idleRounds
                    && (idleRounds == 1 <==> calls >= 2 && answers(calls - 2).Batch?
                                             && answers(calls - 2).remaining == lastRemaining)
        invariant calls <= 2 * R + 3
        invariant phase == Running ==> calls <= 2 * R + 2
        decreases phase == Running, 2 * R + 3 - calls
      {
        var step := answers(calls);
        NextCount(answers, R, calls);
        if pausedDuring(calls) {
          pauseRequested := true;
        }
        calls := calls + 1;
        if step.Error? {
          phase := Failed;
          break;
        }
        progress := Some(Progress(Max(0, step.total - step.remaining), step.total, step.failed));
        if step.done {
          phase := Finished;
          break;
        }
        if step.stalled {
          phase := if step.budget then StalledBudget else StalledFailing;
          break;
        }
        if pauseRequested {
          pauseRequested := false;
          phase := Paused;
          break;
        }
        idleRounds := if step.remaining == lastRemaining then idleRounds + 1 else 0;
        lastRemaining := step.remaining;
        if idleRounds >= 2 {
          phase := Stuck;
          break;
        }
      }
      looping := false;
    }
  }

  function ProgressOf(answer: Answer): Progress
    requires answer.Batch?
  {
    Progress(Max(0, answer.total - answer.remaining), answer.total, answer.failed)
  }

  /** The slowest Worker: every count twice. */
  function Slowest(R: nat): nat -> Answer {
    (i: nat) => Batch(false, false, false, if i / 2 <= R then R - i / 2 else 0, R, 0)
  }

  function NeverPaused(): nat -> bool { (i: nat) => false }

  /** The bound is reached: against the slowest Worker nothing ends the loop before call 2R + 3. */
  lemma BoundIsReached(R: nat)
    ensures Settling(Slowest(R), R)
    ensures forall i: nat :: i < 2 * R + 2 ==> EndAt(Slowest(R), NeverPaused(), i) == Running
    ensures EndAt(Slowest(R), NeverPaused(), 2 * R + 2) == Stuck
  {
    forall i: nat | i < 2 * R + 2 ensures EndAt(Slowest(R), NeverPaused(), i) == Running {
      assert i >= 2 ==> (i - 2) / 2 == i / 2 - 1;
    }
  }
}
