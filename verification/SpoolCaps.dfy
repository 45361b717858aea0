/**
 The caps of the retry spool within the protocol (integrations/agent-hooks-core/core.js): a pass
 drops captures only while what is left of its own listing is over the caps.
 */
module SpoolCaps {
  import opened JsText
  import opened CaptureSpool
  import opened SpoolOrder

  /** The listed files that the pass has not removed. */
  function Left(listed: seq<Entry>, removed: set<string>): seq<Entry> {
    if listed == [] then []
    else (if listed[0].stamp in removed then [] else [listed[0]]) + Left(listed[1..], removed)
  }

  predicate AreOver(files: seq<Entry>) {
    |files| > MAX_ENTRIES || Sizes(files) > MAX_BYTES
  }

  ghost predicate DistinctStamps(files: seq<Entry>) {
    forall i, j :: 0 <= i < j < |files| ==> files[i].stamp != files[j].stamp
  }

  lemma {:induction false} NothingRemoved(listed: seq<Entry>)
    ensures Left(listed, {}) == listed
  {
    if listed != [] {
      NothingRemoved(listed[1..]);
      assert [listed[0]] + listed[1..] == listed;
    }
  }

  lemma {:induction false} NotListed(listed: seq<Entry>, removed: set<string>, stamp: string)
    requires forall i :: 0 <= i < |listed| ==> listed[i].stamp != stamp
    ensures Left(listed, removed + {stamp}) == Left(listed, removed)
  {
    if listed != [] {
      NotListed(listed[1..], removed, stamp);
    }
  }

  lemma SizesOfFirst(a: seq<Entry>, rest: seq<Entry>)
    requires |a| <= 1
    ensures Sizes(a + rest) == Sizes(a) + Sizes(rest)
    ensures a != [] ==> Sizes(a) == |a[0].body|
  {
    if a == [] {
      assert a + rest == rest;
    } else {
      assert (a + rest)[1..] == rest && a[1..] == [];
    }
  }

  /** Removing one listed file takes it, and its size, out of what is left. */
  lemma {:induction false} OneRemoved(listed: seq<Entry>, removed: set<string>, at: nat)
    requires at < |listed| && DistinctStamps(listed) && listed[at].stamp !in removed
    ensures var now, next := Left(listed, removed), Left(listed, removed + {listed[at].stamp});
      |next| == |now| - 1 && Sizes(next) == Sizes(now) - |listed[at].body|
  {
    var rest, stamp := listed[1..], listed[at].stamp;
    var first := if listed[0].stamp in removed then [] else [listed[0]];
    SizesOfFirst(first, Left(rest, removed));
    if at == 0 {
      NotListed(rest, removed, stamp);
      assert [] + Left(rest, removed) == Left(rest, removed);
    } else {
      assert rest[at - 1] == listed[at] && listed[0].stamp != stamp;
      OneRemoved(rest, removed, at - 1);
      SizesOfFirst(first, Left(rest, removed + {stamp}));
    }
  }

  // ── The pass's numbers are those of what is left ──────────────────────────

  ghost predicate Agrees(s: System, x: Worker) {
    x.Capping? ==>
      && DistinctStamps(x.listed) && |x.files| <= |x.listed| && x.files == x.listed[|x.listed| - |x.files|..]
      && (forall e :: e in x.files ==> e.stamp !in x.removed) && x.removed <= s.ended.Keys
      && x.excess == |Left(x.listed, x.removed)| - MAX_ENTRIES && x.total == Sizes(Left(x.listed, x.removed))
  }

  ghost predicate AllAgree(s: System) {
    forall w :: w in s.workers ==> Agrees(s, s.workers[w])
  }

  lemma AscendingAreDistinct(files: seq<Entry>)
    requires Ascending(Stamps(files))
    ensures DistinctStamps(files)
  {
    forall i, j | 0 <= i < j < |files| ensures files[i].stamp != files[j].stamp {
      assert Less(Stamps(files)[i], Stamps(files)[j]);
      LessIsIrreflexive(files[i].stamp);
    }
  }

  lemma ListingAgrees(s: System, w: nat, files: seq<Entry>)
    requires Enabled(s, ListForCaps(w, files))
    ensures Agrees(s, Capping(files, {}, files, |files| - MAX_ENTRIES, Sizes(files)))
  {
    hide Sizes;
    assert Ascending(Stamps(files)) by { hide Less; }
    AscendingAreDistinct(files);
    NothingRemoved(files);
    hide Left, DistinctStamps;
  }

  lemma RestOfFiles(x: Worker)
    requires x.Capping? && x.files != [] && DistinctStamps(x.listed) && |x.files| <= |x.listed| && x.files == x.listed[|x.listed| - |x.files|..]
    ensures var at := |x.listed| - |x.files|;
      x.listed[at] == x.files[0] && x.files[1..] == x.listed[at + 1..] && forall e :: e in x.files[1..] ==> e.stamp != x.files[0].stamp
  {
  }

  lemma DroppingAgrees(s: System, s': System, x: Worker)
    requires x.Capping? && Agrees(s, x) && x.files != []
    requires s.ended.Keys <= s'.ended.Keys && x.files[0].stamp in s'.ended
    ensures var f := x.files[0];
      Agrees(s', Capping(x.listed, x.removed + {f.stamp}, x.files[1..], x.excess - 1, x.total - |f.body|))
  {
    RestOfFiles(x);
    assert x.files[0] in x.files;
    OneRemoved(x.listed, x.removed, |x.listed| - |x.files|);
    hide Left, Sizes, DistinctStamps;
    assert forall e :: e in x.files[1..] ==> e in x.files;
  }

  lemma SkippingAgrees(s: System, s': System, x: Worker)
    requires x.Capping? && Agrees(s, x) && x.files != [] && s.ended.Keys <= s'.ended.Keys
    ensures Agrees(s', Capping(x.listed, x.removed, x.files[1..], x.excess, x.total))
  {
    RestOfFiles(x);
    hide Left, Sizes, DistinctStamps;
    assert forall e :: e in x.files[1..] ==> e in x.files;
  }

  lemma CapStepAgrees(s: System, w: nat)
    requires w in s.workers && s.workers[w].Capping? && Agrees(s, s.workers[w])
    ensures w in CapStepped(s, w).workers ==> Agrees(CapStepped(s, w), CapStepped(s, w).workers[w])
  {
    var x, t := s.workers[w], CapStepped(s, w);
    hide Agrees;
    if w in t.workers {
      if Spool(x.files[0].stamp) in s.dir {
        DroppingAgrees(s, t, x);
      } else {
        SkippingAgrees(s, t, x);
      }
    }
  }

  lemma EndedGrows(s: System, move: Move)
    requires Enabled(s, move)
    ensures s.ended.Keys <= Next(s, move).ended.Keys
  {
    hide IsListing, Renamed, Sizes;
  }

  lemma NextAgrees(s: System, move: Move)
    requires AllAgree(s) && Enabled(s, move)
    ensures AllAgree(Next(s, move))
  {
    var t := Next(s, move);
    EndedGrows(s, move);
    forall w | w in t.workers ensures Agrees(t, t.workers[w]) {
      if move.Tick? || move.w != w {
        OthersStay(s, move, w);
        assert Agrees(s, s.workers[w]);
        hide Next, Enabled, Left, Sizes, DistinctStamps;
      } else if move.CapStep? {
        assert Agrees(s, s.workers[w]);
        CapStepAgrees(s, w);
      } else if move.ListForCaps? {
        ListingAgrees(s, w, move.files);
        hide Left, Sizes, DistinctStamps;
      } else {
        hide IsListing, Agrees, Left, Sizes;
        assert !t.workers[w].Capping?;
      }
    }
  }

  lemma {:induction false} RunAgrees(s: System, moves: seq<Move>, t: System)
    requires AllAgree(s) && Run(s, moves, t)
    ensures AllAgree(t)
    decreases |moves|
  {
    hide AllAgree, Enabled, Next;
    if moves != [] {
      NextAgrees(s, moves[0]);
      RunAgrees(Next(s, moves[0]), moves[1..], t);
    }
  }

  /** In every reachable state a capping worker's numbers are those of the listed files that its pass has not removed. */
  lemma NumbersAreOfWhatIsLeft(s: System, w: nat)
    requires Reachable(s) && w in s.workers && s.workers[w].Capping?
    ensures var x := s.workers[w]; var left := Left(x.listed, x.removed);
      && x.excess == |left| - MAX_ENTRIES && x.total == Sizes(left)
      && |x.files| <= |x.listed| && x.files == x.listed[|x.listed| - |x.files|..] && x.removed <= s.ended.Keys
  {
    var moves :| Run(EMPTY, moves, s);
    assert AllAgree(EMPTY);
    hide Run;
    RunAgrees(EMPTY, moves, s);
    hide Left, Sizes, DistinctStamps;
  }

  /**
   In every reachable state a pass goes on exactly while it has files ahead and what is left of its
   listing is over the caps; so it drops a capture only then, and then the oldest it has ahead.
   */
  lemma DropsOnlyWhileOver(s: System, w: nat)
    requires Reachable(s) && w in s.workers && s.workers[w].Capping?
    ensures var x, t := s.workers[w], CapStepped(s, w);
      && (w in t.workers <==> x.files != [] && AreOver(Left(x.listed, x.removed)))
      && (t.dir != s.dir || t.ended != s.ended ==> AreOver(Left(x.listed, x.removed)) && t.dir == s.dir - {Spool(x.files[0].stamp)})
      && (forall j :: 0 < j < |x.files| ==> Less(x.files[0].stamp, x.files[j].stamp))
  {
    NumbersAreOfWhatIsLeft(s, w);
    DropsOldestFirst(s, w);
    hide Reachable, Left, Sizes, Less;
  }
}
