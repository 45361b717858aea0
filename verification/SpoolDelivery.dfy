/** What the retry spool promises over whole runs (integrations/agent-hooks-core/core.js). */
module SpoolDelivery {
  import opened CaptureSpool
  import opened SpoolInvariant
  import opened SpoolMoves

  lemma {:induction false} RunKeepsInv(s: System, moves: seq<Move>, t: System)
    requires Inv(s) && Run(s, moves, t)
    ensures Inv(t)
    decreases |moves|
  {
    hide Inv, Enabled, Next;
    if moves != [] {
      NextKeepsInv(s, moves[0]);
      RunKeepsInv(Next(s, moves[0]), moves[1..], t);
    }
  }

  lemma ReachableInv(s: System)
    requires Reachable(s)
    ensures Inv(s)
  {
    var moves :| Run(EMPTY, moves, s);
    assert Inv(EMPTY);
    hide Inv, Run;
    RunKeepsInv(EMPTY, moves, s);
  }

  /** A kept capture that has not come to an end lies whole under one name, and under no other. */
  lemma ExactlyOnePlace(s: System, stamp: string) returns (n: Name)
    requires Reachable(s) && stamp in s.kept && stamp !in s.ended
    ensures HeldAt(s, stamp, n) && s.dir[n] == s.kept[stamp]
    ensures forall m :: HeldAt(s, stamp, m) ==> m == n
  {
    ReachableInv(s);
    hide WorkersAreApart, WorkersAreSound, HistoryIsSound, Run;
    n :| HeldAt(s, stamp, n);
  }

  /** What is uploaded is the capture as it was kept. */
  lemma UploadsWhatWasKept(s: System, w: nat)
    requires Reachable(s) && w in s.workers && s.workers[w].Uploading?
    ensures s.workers[w].todo != []
    ensures var e := s.workers[w].todo[0]; e.stamp in s.kept && s.kept[e.stamp] == e.body
    ensures s.workers[w].claim.Claim? && s.workers[w].claim.stamp == s.workers[w].todo[0].stamp
  {
    ReachableInv(s);
    SoundWorker(s, w);
    assert s.workers[w].todo[0] in s.workers[w].todo;
  }

  /**
   While its claim is younger than the stale limit, an upload has the capture to itself: the file
   is under that claim, under no other name, and no other worker with such a claim uploads it.
   */
  lemma UploadIsAlone(s: System, w: nat)
    requires Reachable(s) && w in s.workers && s.workers[w].Uploading?
    requires s.workers[w].claim.Claim? && s.clock - s.workers[w].claim.at < CLAIM_STALE_MS
    ensures HeldAt(s, s.workers[w].claim.stamp, s.workers[w].claim)
    ensures forall m :: HeldAt(s, s.workers[w].claim.stamp, m) ==> m == s.workers[w].claim
    ensures forall v ::
      (v in s.workers && v != w && s.workers[v].Uploading? && s.workers[v].claim.Claim? && s.workers[v].claim.stamp == s.workers[w].claim.stamp)
        ==> s.clock - s.workers[v].claim.at >= CLAIM_STALE_MS
  {
    ReachableInv(s);
    SoundWorker(s, w);
    var stamp := s.workers[w].claim.stamp;
    forall m | HeldAt(s, stamp, m) ensures m == s.workers[w].claim {
      hide WorkersAreApart, WorkersAreSound, HistoryIsSound, NothingIsLost, Run, EntriesAreKept;
    }
    forall v | v in s.workers && v != w && s.workers[v].Uploading? && s.workers[v].claim.Claim? && s.workers[v].claim.stamp == stamp
      ensures s.clock - s.workers[v].claim.at >= CLAIM_STALE_MS
    {
      SoundWorker(s, v);
      hide FilesAreCaptures, NothingIsLost, HistoryIsSound, Run, EntriesAreKept;
    }
  }

  /**
   What the answer decided is done when the worker settles before its claim is stale: a delivered
   or refused capture has no file left, any other is back under its spool name, and the flush goes
   on only if it was delivered.
   */
  lemma SettleSettles(s: System, w: nat)
    requires Reachable(s) && Enabled(s, Settle(w))
    requires s.workers[w].claim.Claim? && s.clock - s.workers[w].claim.at < CLAIM_STALE_MS
    ensures w in Next(s, Settle(w)).workers <==> s.workers[w].goOn
    ensures var stamp := s.workers[w].claim.stamp; var t := Next(s, Settle(w));
      if s.workers[w].remove then forall m :: !HeldAt(t, stamp, m)
      else HeldAt(t, stamp, Spool(stamp)) && forall m :: HeldAt(t, stamp, m) ==> m == Spool(stamp)
  {
    ReachableInv(s);
    SoundWorker(s, w);
    hide Reachable, NothingIsLost, WorkersAreApart, WorkersAreSound, HistoryIsSound, EntriesAreKept;
    var claim := s.workers[w].claim;
    assert forall m :: HeldAt(s, claim.stamp, m) ==> m == claim;
  }

  /** What can end a capture: an answer to the upload of its own body, or the caps. */
  ghost predicate Ends(s: System, move: Move, stamp: string)
    requires Enabled(s, move)
  {
    match move
    case Answer(w, answer) =>
      (answer.Accepted? || answer.Rejected?) && stamp in s.kept && s.workers[w].todo[0] == Entry(stamp, s.kept[stamp])
    case CapStep(w) =>
      var x := s.workers[w];
      Over(x.files, x.excess, x.total) && x.files[0].stamp == stamp && Spool(stamp) in s.dir
    case _ => false
  }

  /** Along the moves some step ends the capture. */
  ghost predicate EndedAlong(s: System, moves: seq<Move>, stamp: string)
    decreases |moves|
  {
    moves != [] && Enabled(s, moves[0]) && (Ends(s, moves[0], stamp) || EndedAlong(Next(s, moves[0]), moves[1..], stamp))
  }

  lemma AnswerEnds(s: System, w: nat, answer: Result, stamp: string)
    requires Inv(s) && Enabled(s, Answer(w, answer)) && stamp !in s.ended && stamp in Answered(s, w, answer).ended
    ensures Ends(s, Answer(w, answer), stamp)
  {
    SoundWorker(s, w);
    hide Inv;
    var todo := s.workers[w].todo;
    assert todo[0] in todo && EntriesAreKept(s, todo);
    hide WorkerIsSound;
  }

  lemma EndIsEarned(s: System, move: Move, stamp: string)
    requires Inv(s) && Enabled(s, move) && stamp !in s.ended && stamp in Next(s, move).ended
    ensures Ends(s, move, stamp)
  {
    hide Inv, Answered;
    if move.Answer? {
      AnswerEnds(s, move.w, move.answer, stamp);
    }
  }

  lemma NotKeptTwice(s: System, w: nat)
    requires Inv(s) && w in s.workers && s.workers[w].Spooling?
    ensures s.workers[w].entry.stamp !in s.kept
  {
    SoundWorker(s, w);
  }

  lemma KeptStays(s: System, move: Move, stamp: string)
    requires Inv(s) && Enabled(s, move) && stamp in s.kept
    ensures stamp in Next(s, move).kept && Next(s, move).kept[stamp] == s.kept[stamp]
  {
    if move.Commit? {
      NotKeptTwice(s, move.w);
    }
    hide Inv, Renamed, CapStepped, Recovered, ReadOn, Renaming, Answered, Settled;
  }

  /** A capture that comes to an end in a run is ended by a step of the run that may end it. */
  lemma {:induction false} RunEndsAreEarned(s: System, moves: seq<Move>, t: System, stamp: string)
    requires Inv(s) && Run(s, moves, t) && stamp !in s.ended && stamp in t.ended
    ensures EndedAlong(s, moves, stamp)
    decreases |moves|
  {
    hide Inv, Enabled, Next, Ends;
    var s' := Next(s, moves[0]);
    NextKeepsInv(s, moves[0]);
    if stamp in s'.ended {
      EndIsEarned(s, moves[0], stamp);
    } else {
      RunEndsAreEarned(s', moves[1..], t, stamp);
    }
  }

  lemma {:induction false} KeptStaysAlong(s: System, moves: seq<Move>, t: System, stamp: string)
    requires Inv(s) && Run(s, moves, t) && stamp in s.kept
    ensures stamp in t.kept && t.kept[stamp] == s.kept[stamp]
    decreases |moves|
  {
    hide Inv, Enabled, Next;
    if moves != [] {
      NextKeepsInv(s, moves[0]);
      KeptStays(s, moves[0], stamp);
      KeptStaysAlong(Next(s, moves[0]), moves[1..], t, stamp);
    }
  }

  /**
   At-least-once delivery: a capture kept at any point of a run is, at every later point, in exactly
   one place with the body it was kept with, unless a step in between was an answer that ends it or
   the caps dropped it.
   */
  lemma KeptUntilEnded(s: System, moves: seq<Move>, t: System, stamp: string)
    requires Reachable(s) && Run(s, moves, t) && stamp in s.kept && stamp !in s.ended
    ensures EndedAlong(s, moves, stamp) || exists n :: HeldAt(t, stamp, n) && t.dir[n] == s.kept[stamp] && forall m :: HeldAt(t, stamp, m) ==> m == n
  {
    ReachableInv(s);
    hide Reachable;
    RunKeepsInv(s, moves, t);
    KeptStaysAlong(s, moves, t, stamp);
    if stamp in t.ended {
      RunEndsAreEarned(s, moves, t, stamp);
    } else {
      hide Run, EndedAlong, WorkersAreApart, WorkersAreSound, HistoryIsSound;
      var n :| HeldAt(t, stamp, n);
      assert t.dir[n] == s.kept[stamp] && forall m :: HeldAt(t, stamp, m) ==> m == n;
    }
  }
}
