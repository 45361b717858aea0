/**
 A flush that nothing disturbs (integrations/agent-hooks-core/core.js): which captures it takes out
 of the spool, as the answers decide.
 */
module SpoolFlush {
  import opened CaptureSpool
  import opened JsText
  import opened SpoolDelivery
  import opened SpoolInvariant
  import opened SpoolMoves

  /**
   How many captures leave the spool, from the k-th on, of so many listed: two at most, as long as
   each is accepted; one that is refused leaves too, and is the last.
   */
  function Gone(count: nat, answers: nat -> Result, k: nat): nat
    decreases count - k
  {
    if k >= count || k >= 2 then k
    else if answers(k).Accepted? then Gone(count, answers, k + 1)
    else if answers(k).Rejected? then k + 1
    else k
  }

  ghost function Spools(listing: seq<string>, n: nat): set<Name>
    requires n <= |listing|
  {
    set i | 0 <= i < n :: Spool(listing[i])
  }

  /** What the flush may do: go on reading and claiming, stop only when it is through, take the n-th answer. */
  ghost predicate Allowed(s: System, move: Move, w: nat, answers: nat -> Result, n: nat)
    requires Enabled(s, move)
  {
    move.Tick? ||
    (move.w == w && match move
     case ReadStep(_, readable) => readable
     case DrawClaim(_, _) => true
     case RenameToClaim(_) => true
     case Answer(_, answer) => answer == answers(n)
     case Settle(_) => true
     case Stop(_) => s.workers[w].todo == [] || s.workers[w].sent >= MAX_PER_FLUSH
     case _ => false)
  }

  /** Nothing but the flush moves, and it gets these answers from the n-th on. */
  ghost predicate RunsAlone(s: System, moves: seq<Move>, t: System, w: nat, answers: nat -> Result, n: nat)
    decreases |moves|
  {
    if moves == [] then s == t
    else
      && Enabled(s, moves[0]) && Allowed(s, moves[0], w, answers, n)
      && RunsAlone(Next(s, moves[0]), moves[1..], t, w, answers, if moves[0].Answer? then n + 1 else n)
  }

  /** Where the flush stands after n answers, and what the directory then is. */
  ghost predicate Stands(files: map<Name, string>, listing: seq<string>, answers: nat -> Result, n: nat, x: Worker, dir: map<Name, string>) {
    && n <= |listing|
    && match x
       case Reading(stamps, found) => n == 0 && dir == files && Stamps(found) + stamps == listing
       case Ready(todo, sent) => sent == n <= 2 && Stamps(todo) == listing[n..] && StillAhead(files, listing, answers, n, dir)
       case Claiming(todo, sent, claim) =>
         && sent == n < 2 && n < |listing| && Stamps(todo) == listing[n..] && StillAhead(files, listing, answers, n, dir)
         && claim.Claim? && claim.stamp == listing[n]
       case Uploading(todo, sent, claim) =>
         && sent == n + 1 <= 2 && n < |listing| && Stamps(todo) == listing[n..]
         && IsClaimed(files, listing, answers, n, claim, dir)
       case Settling(todo, sent, claim, remove, goOn) =>
         && 0 < n == sent <= 2 && Stamps(todo) == listing[n - 1..]
         && IsClaimed(files, listing, answers, n - 1, claim, dir)
         && remove == (answers(n - 1).Accepted? || answers(n - 1).Rejected?) && goOn == answers(n - 1).Accepted?
       case _ => false
  }

  /** The first n captures have left, and all that follows is still to be decided. */
  ghost predicate StillAhead(files: map<Name, string>, listing: seq<string>, answers: nat -> Result, n: nat, dir: map<Name, string>)
    requires n <= |listing|
  {
    dir == files - Spools(listing, n) && Gone(|listing|, answers, 0) == Gone(|listing|, answers, n)
  }

  /** The n-th capture lies under its claim. */
  ghost predicate IsClaimed(files: map<Name, string>, listing: seq<string>, answers: nat -> Result, n: nat, claim: Name, dir: map<Name, string>)
    requires n < |listing|
  {
    && claim.Claim? && claim.stamp == listing[n] && claim !in files && Spool(listing[n]) in files
    && dir == (files - Spools(listing, n + 1))[claim := files[Spool(listing[n])]]
    && Gone(|listing|, answers, 0) == Gone(|listing|, answers, n)
  }

  ghost predicate HasFinished(files: map<Name, string>, listing: seq<string>, answers: nat -> Result, dir: map<Name, string>) {
    Gone(|listing|, answers, 0) <= |listing| && dir == files - Spools(listing, Gone(|listing|, answers, 0))
  }

  ghost predicate IsWhole(files: map<Name, string>, listing: seq<string>) {
    (forall i :: 0 <= i < |listing| ==> Spool(listing[i]) in files)
    && forall i, j :: 0 <= i < j < |listing| ==> listing[i] != listing[j]
  }

  // ── The steps of the flush ────────────────────────────────────────────────

  lemma OneMoreSpool(listing: seq<string>, n: nat)
    requires n < |listing|
    ensures Spools(listing, n + 1) == Spools(listing, n) + {Spool(listing[n])}
  {
  }

  lemma NextIsThere(files: map<Name, string>, listing: seq<string>, n: nat)
    requires IsWhole(files, listing) && n < |listing|
    ensures Spool(listing[n]) in files - Spools(listing, n)
  {
  }

  lemma NoSpools(files: map<Name, string>, listing: seq<string>)
    ensures files - Spools(listing, 0) == files
  {
  }

  /** The oldest capture ahead gets its claim's name. */
  lemma ClaimingTakes(files: map<Name, string>, listing: seq<string>, answers: nat -> Result, n: nat, claim: Name, dir: map<Name, string>)
    requires IsWhole(files, listing) && n < |listing| && StillAhead(files, listing, answers, n, dir)
    requires claim.Claim? && claim.stamp == listing[n] && claim !in dir
    ensures Spool(listing[n]) in dir && IsClaimed(files, listing, answers, n, claim, Renamed(dir, Spool(listing[n]), claim))
  {
    NextIsThere(files, listing, n);
    OneMoreSpool(listing, n);
    hide Gone, IsWhole;
    assert claim !in files by { assert claim !in Spools(listing, n); }
    assert files - Spools(listing, n) - {Spool(listing[n])} == files - Spools(listing, n + 1);
  }

  lemma RemovedIsGone(files: map<Name, string>, listing: seq<string>, answers: nat -> Result, n: nat, claim: Name, dir: map<Name, string>)
    requires n < |listing| && IsClaimed(files, listing, answers, n, claim, dir)
    ensures dir - {claim} == files - Spools(listing, n + 1)
  {
    hide Gone;
  }

  lemma ReleasedIsBack(files: map<Name, string>, listing: seq<string>, answers: nat -> Result, n: nat, claim: Name, dir: map<Name, string>)
    requires IsWhole(files, listing) && n < |listing| && IsClaimed(files, listing, answers, n, claim, dir)
    ensures Renamed(dir, claim, Spool(listing[n])) == files - Spools(listing, n)
  {
    NextIsThere(files, listing, n);
    OneMoreSpool(listing, n);
    hide Gone, IsWhole;
    assert dir - {claim} == files - Spools(listing, n + 1);
    assert (files - Spools(listing, n + 1))[Spool(listing[n]) := files[Spool(listing[n])]] == files - Spools(listing, n);
  }

  lemma StampsRest(todo: seq<Entry>, listing: seq<string>, n: nat)
    requires n < |listing| && Stamps(todo) == listing[n..]
    ensures todo != [] && todo[0].stamp == listing[n] && Stamps(todo[1..]) == listing[n + 1..]
  {
    assert |Stamps(todo)| == |todo|;
    assert Stamps(todo)[0] == todo[0].stamp;
    assert Stamps(todo[1..]) == Stamps(todo)[1..];
  }

  lemma GoneAfter(count: nat, answers: nat -> Result, n: nat)
    requires n < count && n < 2
    ensures answers(n).Accepted? ==> Gone(count, answers, n) == Gone(count, answers, n + 1)
    ensures answers(n).Rejected? ==> Gone(count, answers, n) == n + 1
    ensures !answers(n).Accepted? && !answers(n).Rejected? ==> Gone(count, answers, n) == n
  {
  }

  lemma SettledPlace(files: map<Name, string>, listing: seq<string>, answers: nat -> Result, n: nat, x: Worker, dir: map<Name, string>)
    requires IsWhole(files, listing) && x.Settling? && Stands(files, listing, answers, n, x, dir)
    ensures x.todo != []
    ensures var dir' := if x.remove then dir - {x.claim} else Renamed(dir, x.claim, Spool(x.todo[0].stamp));
      if x.goOn then Stands(files, listing, answers, n, Ready(x.todo[1..], x.sent), dir') else HasFinished(files, listing, answers, dir')
  {
    StampsRest(x.todo, listing, n - 1);
    GoneAfter(|listing|, answers, n - 1);
    RemovedIsGone(files, listing, answers, n - 1, x.claim, dir);
    ReleasedIsBack(files, listing, answers, n - 1, x.claim, dir);
    hide Gone, IsWhole, Spools, Renamed, Stamps;
  }

  /** After a settled answer the flush stands before the next capture, or has finished. */
  lemma SettledStands(files: map<Name, string>, listing: seq<string>, answers: nat -> Result, n: nat, s: System, w: nat)
    requires IsWhole(files, listing) && w in s.workers && s.workers[w].Settling? && s.workers[w].todo != []
    requires Stands(files, listing, answers, n, s.workers[w], s.dir)
    ensures var t := Settled(s, w);
      if w in t.workers then Stands(files, listing, answers, n, t.workers[w], t.dir) else HasFinished(files, listing, answers, t.dir)
  {
    SettledPlace(files, listing, answers, n, s.workers[w], s.dir);
    hide Stands, HasFinished, IsWhole, Renamed;
  }

  lemma ReadStands(files: map<Name, string>, listing: seq<string>, answers: nat -> Result, s: System, w: nat)
    requires IsWhole(files, listing) && Enabled(s, ReadStep(w, true)) && Stands(files, listing, answers, 0, s.workers[w], s.dir)
    ensures var t := Next(s, ReadStep(w, true));
      if w in t.workers then Stands(files, listing, answers, 0, t.workers[w], t.dir) else HasFinished(files, listing, answers, t.dir)
  {
    var Reading(stamps, found) := s.workers[w];
    NoSpools(files, listing);
    hide Gone, Spools;
    if stamps == [] {
      assert Stamps(found) + [] == Stamps(found) && listing[0..] == listing;
      if found == [] {
        assert |Stamps(found)| == 0;
        NothingGone(listing, answers);
      }
    } else {
      assert listing[|found|] == stamps[0];
      var entry := Entry(stamps[0], s.dir[Spool(stamps[0])]);
      assert Stamps(found + [entry]) == Stamps(found) + [stamps[0]];
      assert Stamps(found) + [stamps[0]] + stamps[1..] == Stamps(found) + stamps;
    }
  }

  lemma NothingGone(listing: seq<string>, answers: nat -> Result)
    requires listing == []
    ensures Gone(|listing|, answers, 0) == 0
  {
  }

  lemma ClaimIsNew(s: System, w: nat)
    requires Inv(s) && w in s.workers && s.workers[w].Claiming?
    ensures s.workers[w].claim !in s.dir
  {
    SoundWorker(s, w);
  }

  lemma RenamedPlace(files: map<Name, string>, listing: seq<string>, answers: nat -> Result, n: nat, x: Worker, dir: map<Name, string>)
    requires IsWhole(files, listing) && x.Claiming? && Stands(files, listing, answers, n, x, dir) && x.claim !in dir
    ensures x.todo != [] && Spool(x.todo[0].stamp) in dir
    ensures Stands(files, listing, answers, n, Uploading(x.todo, x.sent + 1, x.claim), Renamed(dir, Spool(x.todo[0].stamp), x.claim))
  {
    StampsRest(x.todo, listing, n);
    ClaimingTakes(files, listing, answers, n, x.claim, dir);
    hide IsWhole, Renamed, Stamps, StillAhead, IsClaimed;
  }

  lemma RenameStands(files: map<Name, string>, listing: seq<string>, answers: nat -> Result, n: nat, s: System, w: nat)
    requires IsWhole(files, listing) && w in s.workers && s.workers[w].Claiming? && s.workers[w].todo != []
    requires s.workers[w].claim !in s.dir && Stands(files, listing, answers, n, s.workers[w], s.dir)
    ensures var t := Renaming(s, w); w in t.workers && Stands(files, listing, answers, n, t.workers[w], t.dir)
  {
    RenamedPlace(files, listing, answers, n, s.workers[w], s.dir);
    hide Stands, IsWhole, Renamed;
  }

  lemma StopFinishes(files: map<Name, string>, listing: seq<string>, answers: nat -> Result, n: nat, s: System, w: nat)
    requires Enabled(s, Stop(w)) && Stands(files, listing, answers, n, s.workers[w], s.dir)
    requires s.workers[w].todo == [] || s.workers[w].sent >= MAX_PER_FLUSH
    ensures HasFinished(files, listing, answers, Next(s, Stop(w)).dir)
  {
    assert |Stamps(s.workers[w].todo)| == |s.workers[w].todo|;
    assert Gone(|listing|, answers, n) == n;
    hide Spools;
  }

  lemma DrawStands(files: map<Name, string>, listing: seq<string>, answers: nat -> Result, n: nat, s: System, w: nat, rand: string)
    requires Enabled(s, DrawClaim(w, rand)) && Stands(files, listing, answers, n, s.workers[w], s.dir)
    ensures var t := Next(s, DrawClaim(w, rand)); w in t.workers && Stands(files, listing, answers, n, t.workers[w], t.dir)
  {
    var todo := s.workers[w].todo;
    assert |Stamps(todo)| == |todo| && Stamps(todo)[0] == todo[0].stamp;
    hide StillAhead;
  }

  lemma AnswerStands(files: map<Name, string>, listing: seq<string>, answers: nat -> Result, n: nat, s: System, w: nat)
    requires Enabled(s, Answer(w, answers(n))) && Stands(files, listing, answers, n, s.workers[w], s.dir)
    ensures var t := Next(s, Answer(w, answers(n))); w in t.workers && Stands(files, listing, answers, n + 1, t.workers[w], t.dir)
  {
    hide IsClaimed, Stamps;
  }

  /** Each step of an undisturbed flush leads to its next place, or to its end. */
  lemma NextStands(files: map<Name, string>, listing: seq<string>, answers: nat -> Result, n: nat, s: System, w: nat, move: Move)
    requires IsWhole(files, listing) && Inv(s) && w in s.workers && Enabled(s, move) && Allowed(s, move, w, answers, n)
    requires Stands(files, listing, answers, n, s.workers[w], s.dir)
    ensures var t := Next(s, move);
      if w in t.workers then Stands(files, listing, answers, if move.Answer? then n + 1 else n, t.workers[w], t.dir)
      else HasFinished(files, listing, answers, t.dir)
  {
    hide Inv, Stands, HasFinished, IsWhole;
    match move
    case ReadStep(_, _) => assert n == 0 by { ReadingIsFirst(files, listing, answers, n, s, w); } ReadStands(files, listing, answers, s, w);
    case DrawClaim(_, rand) => DrawStands(files, listing, answers, n, s, w, rand);
    case RenameToClaim(_) => ClaimIsNew(s, w); RenameStands(files, listing, answers, n, s, w);
    case Answer(_, _) => AnswerStands(files, listing, answers, n, s, w);
    case Settle(_) => SettledStands(files, listing, answers, n, s, w);
    case Stop(_) => StopFinishes(files, listing, answers, n, s, w);
    case _ =>
  }

  lemma ReadingIsFirst(files: map<Name, string>, listing: seq<string>, answers: nat -> Result, n: nat, s: System, w: nat)
    requires w in s.workers && s.workers[w].Reading? && Stands(files, listing, answers, n, s.workers[w], s.dir)
    ensures n == 0
  {
  }

  lemma AloneAfterEnd(s: System, moves: seq<Move>, t: System, w: nat, answers: nat -> Result, n: nat)
    requires RunsAlone(s, moves, t, w, answers, n) && w !in s.workers
    ensures t.dir == s.dir && w !in t.workers
    decreases |moves|
  {
    if moves != [] {
      assert moves[0].Tick?;
      AloneAfterEnd(Next(s, moves[0]), moves[1..], t, w, answers, n);
    }
  }

  lemma {:induction false} AloneFinishes(files: map<Name, string>, listing: seq<string>, answers: nat -> Result, n: nat,
                                         s: System, moves: seq<Move>, t: System, w: nat)
    requires IsWhole(files, listing) && Inv(s) && w in s.workers && Stands(files, listing, answers, n, s.workers[w], s.dir)
    requires RunsAlone(s, moves, t, w, answers, n) && w !in t.workers
    ensures HasFinished(files, listing, answers, t.dir)
    decreases |moves|
  {
    hide Inv, Stands, HasFinished, IsWhole, Enabled, Next, Allowed;
    var move := moves[0];
    var s' := Next(s, move);
    NextStands(files, listing, answers, n, s, w, move);
    NextKeepsInv(s, move);
    if w in s'.workers {
      AloneFinishes(files, listing, answers, if move.Answer? then n + 1 else n, s', moves[1..], t, w);
    } else {
      AloneAfterEnd(s', moves[1..], t, w, answers, if move.Answer? then n + 1 else n);
    }
  }

  /**
   A flush that has just listed the spool and that nothing disturbs ends with exactly the captures
   gone that the answers let go, the oldest first, and the rest of the directory as it was.
   */
  lemma FlushTakesOut(s: System, moves: seq<Move>, t: System, w: nat, listing: seq<string>, answers: nat -> Result)
    requires Reachable(s) && w in s.workers && s.workers[w] == Reading(listing, []) && IsListing(s.dir, listing)
    requires RunsAlone(s, moves, t, w, answers, 0) && w !in t.workers
    ensures Gone(|listing|, answers, 0) <= |listing| && t.dir == s.dir - Spools(listing, Gone(|listing|, answers, 0))
  {
    ReachableInv(s);
    assert Stamps([]) + listing == listing;
    forall i, j | 0 <= i < j < |listing| ensures listing[i] != listing[j] {
      assert Less(listing[i], listing[j]);
      LessIsIrreflexive(listing[i]);
    }
    hide Inv, IsListing, Reachable, RunsAlone, Gone;
    AloneFinishes(s.dir, listing, answers, 0, s, moves, t, w);
  }

  /** So the two oldest captures are delivered if both are accepted, and nothing leaves if the first upload fails. */
  lemma GoneIs(count: nat, answers: nat -> Result)
    ensures count >= 2 && answers(0).Accepted? && answers(1).Accepted? ==> Gone(count, answers, 0) == 2
    ensures count == 1 && answers(0).Accepted? ==> Gone(count, answers, 0) == 1
    ensures count >= 1 && answers(0).Rejected? ==> Gone(count, answers, 0) == 1
    ensures count >= 2 && answers(0).Accepted? && answers(1).Rejected? ==> Gone(count, answers, 0) == 2
    ensures count >= 2 && answers(0).Accepted? && (answers(1).Threw? || answers(1).Failed?) ==> Gone(count, answers, 0) == 1
    ensures answers(0).Threw? || answers(0).Failed? ==> Gone(count, answers, 0) == 0
  {
    assert Gone(count, answers, 2) == 2;
  }
}
