/**
 What an answer to an upload comes to (integrations/agent-hooks-core/core.js), whatever the other
 workers do before it is carried out.
 */
module SpoolAnswers {
  import opened CaptureSpool
  import opened SpoolDelivery
  import opened SpoolInvariant
  import opened SpoolMoves
  import opened SpoolOrder

  ghost predicate NotBy(moves: seq<Move>, w: nat) {
    forall i :: 0 <= i < |moves| ==> moves[i].Tick? || moves[i].w != w
  }

  lemma OthersKeep(s: System, move: Move, w: nat)
    requires Enabled(s, move) && w in s.workers && (move.Tick? || move.w != w)
    ensures w in Next(s, move).workers && Next(s, move).workers[w] == s.workers[w]
  {
    hide IsListing, Renamed, Sizes;
  }

  /** Other workers' moves leave a worker where it is. */
  lemma {:induction false} OthersKeepAlong(s: System, moves: seq<Move>, t: System, w: nat)
    requires Run(s, moves, t) && w in s.workers && NotBy(moves, w)
    ensures w in t.workers && t.workers[w] == s.workers[w]
    decreases |moves|
  {
    hide Enabled, Next;
    if moves != [] {
      OthersKeep(s, moves[0], w);
      OthersKeepAlong(Next(s, moves[0]), moves[1..], t, w);
    }
  }

  lemma {:induction false} RunJoins(s: System, moves: seq<Move>, t: System, more: seq<Move>, u: System)
    requires Run(s, moves, t) && Run(t, more, u)
    ensures Run(s, moves + more, u)
    decreases |moves|
  {
    hide Enabled, Next;
    if moves == [] {
      assert moves + more == more;
    } else {
      RunJoins(Next(s, moves[0]), moves[1..], t, more, u);
      assert (moves + more)[1..] == moves[1..] + more;
    }
  }

  lemma ReachableOn(s: System, move: Move, moves: seq<Move>, t: System)
    requires Reachable(s) && Enabled(s, move) && Run(Next(s, move), moves, t)
    ensures Reachable(t)
  {
    var before :| Run(EMPTY, before, s);
    var rest := [move] + moves;
    assert rest[1..] == moves;
    assert Run(s, rest, t);
    hide Run, Enabled, Next;
    RunJoins(EMPTY, before, s, rest, t);
  }

  /** The worker stands at its answer's settlement. */
  lemma AnswerLeadsToSettle(s: System, w: nat, answer: Result)
    requires Enabled(s, Answer(w, answer))
    ensures var t := Next(s, Answer(w, answer));
      Enabled(t, Settle(w)) && t.workers[w].claim == s.workers[w].claim && t.workers[w].todo == s.workers[w].todo
    ensures var x := Next(s, Answer(w, answer)).workers[w];
      x.Settling? && (x.remove <==> answer.Accepted? || answer.Rejected?) && (x.goOn <==> answer.Accepted?)
  {
  }

  /**
   An upload is answered, others move, and the worker settles before its claim is stale: then a
   delivered or refused capture has no file left, any other lies whole under its spool name alone,
   and the flush goes on if and only if the capture was delivered.
   */
  lemma AnswerIsCarriedOut(s: System, w: nat, answer: Result, moves: seq<Move>, t: System)
    requires Reachable(s) && Enabled(s, Answer(w, answer)) && Run(Next(s, Answer(w, answer)), moves, t) && NotBy(moves, w)
    requires s.workers[w].claim.Claim? && t.clock - s.workers[w].claim.at < CLAIM_STALE_MS
    ensures Enabled(t, Settle(w))
    ensures var stamp := s.workers[w].todo[0].stamp; var u := Next(t, Settle(w));
      if answer.Accepted? || answer.Rejected? then forall m :: !HeldAt(u, stamp, m)
      else HeldAt(u, stamp, Spool(stamp)) && forall m :: HeldAt(u, stamp, m) ==> m == Spool(stamp)
    ensures w in Next(t, Settle(w)).workers <==> answer.Accepted?
  {
    var s1 := Next(s, Answer(w, answer));
    AnswerLeadsToSettle(s, w, answer);
    UploadsWhatWasKept(s, w);
    OthersKeepAlong(s1, moves, t, w);
    ReachableOn(s, Answer(w, answer), moves, t);
    assert Enabled(t, Settle(w));
    hide Reachable, Run, Next, NotBy;
    SettleSettles(t, w);
  }
}
