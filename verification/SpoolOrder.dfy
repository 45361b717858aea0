/**
 The order and the amount of a flush's work (integrations/agent-hooks-core/core.js): oldest capture
 first, and no more uploads in one flush than allowed.
 */
module SpoolOrder {
  import opened JsText
  import opened CaptureSpool

  ghost predicate Ascending(stamps: seq<string>) {
    forall i, j :: 0 <= i < j < |stamps| ==> Less(stamps[i], stamps[j])
  }

  /** The captures that a worker still goes over, in the order it takes them. */
  ghost function Ahead(x: Worker): seq<string> {
    match x
    case Capping(_, _, files, _, _) => Stamps(files)
    case Reading(stamps, found) => Stamps(found) + stamps
    case Ready(todo, _) => Stamps(todo)
    case Claiming(todo, _, _) => Stamps(todo)
    case Uploading(todo, _, _) => Stamps(todo)
    case Settling(todo, _, _, _, _) => Stamps(todo)
    case _ => []
  }

  /** How many uploads the flush has begun, with the one it is about to begin. */
  function Begun(x: Worker): nat {
    match x
    case Ready(_, sent) => sent
    case Claiming(_, sent, _) => sent + 1
    case Uploading(_, sent, _) => sent
    case Settling(_, sent, _, _, _) => sent
    case _ => 0
  }

  ghost predicate InOrder(x: Worker) {
    Ascending(Ahead(x)) && Begun(x) <= MAX_PER_FLUSH
  }

  ghost predicate AllInOrder(s: System) {
    forall w :: w in s.workers ==> InOrder(s.workers[w])
  }

  lemma AscendingRest(stamps: seq<string>)
    requires Ascending(stamps) && stamps != []
    ensures Ascending(stamps[1..])
  {
    hide Less;
  }

  lemma StampsOfRest(files: seq<Entry>)
    requires files != []
    ensures Stamps(files[1..]) == Stamps(files)[1..]
  {
  }

  /** Reading one more file keeps the order, whether the file could be read or not. */
  lemma ReadingStaysInOrder(stamps: seq<string>, found: seq<Entry>, body: string)
    requires Ascending(Stamps(found) + stamps) && stamps != []
    ensures Ascending(Stamps(found + [Entry(stamps[0], body)]) + stamps[1..])
    ensures Ascending(Stamps(found + []) + stamps[1..])
  {
    hide Less;
    var all := Stamps(found) + stamps;
    assert Stamps(found + [Entry(stamps[0], body)]) + stamps[1..] == all;
    var less := Stamps(found + []) + stamps[1..];
    forall i, j | 0 <= i < j < |less| ensures Less(less[i], less[j]) {
      assert less[i] == if i < |found| then all[i] else all[i + 1];
      assert less[j] == if j < |found| then all[j] else all[j + 1];
    }
  }

  lemma CapsStayInOrder(s: System, w: nat)
    requires w in s.workers && s.workers[w].Capping? && InOrder(s.workers[w])
    ensures w in CapStepped(s, w).workers ==> InOrder(CapStepped(s, w).workers[w])
  {
    var files := s.workers[w].files;
    if files != [] {
      StampsOfRest(files);
      AscendingRest(Stamps(files));
    }
    hide Ascending;
  }

  lemma ReadsStayInOrder(s: System, w: nat, readable: bool)
    requires w in s.workers && s.workers[w].Reading? && InOrder(s.workers[w])
    ensures w in ReadOn(s, w, readable).workers ==> InOrder(ReadOn(s, w, readable).workers[w])
  {
    var Reading(stamps, found) := s.workers[w];
    hide Ascending;
    if stamps == [] {
      assert Stamps(found) + [] == Stamps(found);
    } else {
      ReadingStaysInOrder(stamps, found, if Spool(stamps[0]) in s.dir then s.dir[Spool(stamps[0])] else "");
    }
  }

  lemma RenamesStayInOrder(s: System, w: nat)
    requires w in s.workers && s.workers[w].Claiming? && s.workers[w].todo != [] && InOrder(s.workers[w])
    ensures w in Renaming(s, w).workers && InOrder(Renaming(s, w).workers[w])
  {
    StampsOfRest(s.workers[w].todo);
    AscendingRest(Stamps(s.workers[w].todo));
    hide Ascending, Renamed;
  }

  lemma SettlesStayInOrder(s: System, w: nat)
    requires w in s.workers && s.workers[w].Settling? && s.workers[w].todo != [] && InOrder(s.workers[w])
    ensures w in Settled(s, w).workers ==> InOrder(Settled(s, w).workers[w])
  {
    StampsOfRest(s.workers[w].todo);
    AscendingRest(Stamps(s.workers[w].todo));
    hide Ascending, Renamed;
  }

  lemma ListingsAreInOrder(s: System, move: Move)
    requires Enabled(s, move) && (move.ListForCaps? || move.ListSpool?)
    ensures InOrder(Next(s, move).workers[move.w])
  {
    if move.ListSpool? {
      assert Stamps([]) + move.stamps == move.stamps;
    }
    hide Less, Sizes;
  }

  /** The worker that makes the move is in order after it. */
  lemma MoverStaysInOrder(s: System, move: Move)
    requires AllInOrder(s) && Enabled(s, move) && !move.Tick? && move.w in Next(s, move).workers
    ensures InOrder(Next(s, move).workers[move.w])
  {
    assert move.w in s.workers ==> InOrder(s.workers[move.w]);
    if move.CapStep? {
      CapsStayInOrder(s, move.w);
    } else if move.ReadStep? {
      ReadsStayInOrder(s, move.w, move.readable);
    } else if move.RenameToClaim? {
      RenamesStayInOrder(s, move.w);
    } else if move.Settle? {
      SettlesStayInOrder(s, move.w);
    } else if move.ListForCaps? || move.ListSpool? {
      ListingsAreInOrder(s, move);
    } else {
      hide Ascending, CapStepped, ReadOn, Renaming, Settled;
      assert Ascending([]);
    }
  }

  lemma OthersStay(s: System, move: Move, w: nat)
    requires Enabled(s, move) && w in Next(s, move).workers && (move.Tick? || move.w != w)
    ensures w in s.workers && Next(s, move).workers[w] == s.workers[w]
  {
    hide IsListing, Renamed, Sizes;
  }

  lemma NextKeepsOrder(s: System, move: Move)
    requires AllInOrder(s) && Enabled(s, move)
    ensures AllInOrder(Next(s, move))
  {
    hide Enabled, Next, InOrder;
    forall w | w in Next(s, move).workers ensures InOrder(Next(s, move).workers[w]) {
      if move.Tick? || move.w != w {
        OthersStay(s, move, w);
      } else {
        MoverStaysInOrder(s, move);
      }
    }
  }

  lemma {:induction false} RunKeepsOrder(s: System, moves: seq<Move>, t: System)
    requires AllInOrder(s) && Run(s, moves, t)
    ensures AllInOrder(t)
    decreases |moves|
  {
    hide AllInOrder, Enabled, Next;
    if moves != [] {
      NextKeepsOrder(s, moves[0]);
      RunKeepsOrder(Next(s, moves[0]), moves[1..], t);
    }
  }

  /** In every reachable state an upload takes the oldest of what its flush has left, and is at most the second of that flush. */
  lemma UploadsOldestFirst(s: System, w: nat)
    requires Reachable(s) && w in s.workers && s.workers[w].Uploading?
    ensures forall j :: 0 < j < |s.workers[w].todo| ==> Less(s.workers[w].todo[0].stamp, s.workers[w].todo[j].stamp)
    ensures s.workers[w].sent <= MAX_PER_FLUSH
  {
    ReachableInOrder(s, w);
    var todo := s.workers[w].todo;
    forall j | 0 < j < |todo| ensures Less(todo[0].stamp, todo[j].stamp) {
      assert Less(Stamps(todo)[0], Stamps(todo)[j]);
    }
  }

  /** The caps drop the oldest of the files that they have not gone over. */
  lemma DropsOldestFirst(s: System, w: nat)
    requires Reachable(s) && w in s.workers && s.workers[w].Capping?
    ensures forall j :: 0 < j < |s.workers[w].files| ==> Less(s.workers[w].files[0].stamp, s.workers[w].files[j].stamp)
  {
    ReachableInOrder(s, w);
    var files := s.workers[w].files;
    forall j | 0 < j < |files| ensures Less(files[0].stamp, files[j].stamp) {
      assert Less(Stamps(files)[0], Stamps(files)[j]);
    }
  }

  lemma ReachableInOrder(s: System, w: nat)
    requires Reachable(s) && w in s.workers
    ensures InOrder(s.workers[w])
  {
    var moves :| Run(EMPTY, moves, s);
    hide Run;
    RunKeepsOrder(EMPTY, moves, s);
  }
}
