/**
 The invariant of the retry spool's protocol, and the small changes of state that its moves are
 made of (integrations/agent-hooks-core/core.js).
 */
module SpoolInvariant {
  import opened CaptureSpool

  // ── The invariant ─────────────────────────────────────────────────────────

  /** Every file holds the body of its capture, and no capture has two files. */
  ghost predicate FilesAreCaptures(s: System) {
    && (forall n :: n in s.dir && !n.Temp? ==> n.stamp in s.kept && s.dir[n] == s.kept[n.stamp])
    && (forall n, m :: n in s.dir && m in s.dir && !n.Temp? && !m.Temp? && n.stamp == m.stamp ==> n == m)
  }

  /** A kept capture that has not come to an end has a file. */
  ghost predicate NothingIsLost(s: System) {
    forall stamp :: stamp in s.kept && stamp !in s.ended ==> exists n :: HeldAt(s, stamp, n)
  }

  ghost predicate EntriesAreKept(s: System, entries: seq<Entry>) {
    forall e :: e in entries ==> e.stamp in s.kept && s.kept[e.stamp] == e.body
  }

  ghost predicate HasClaim(w: Worker) {
    w.Claiming? || w.Uploading? || w.Settling?
  }

  ghost predicate HoldsFile(w: Worker) {
    w.Uploading? || w.Settling?
  }

  /** What one worker holds is consistent with the directory and the history. */
  ghost predicate WorkerIsSound(s: System, w: Worker) {
    match w
    case Spooling(entry) =>
      && entry.stamp in s.stamps && entry.stamp !in s.kept
      && (Temp(entry.stamp) in s.dir ==> s.dir[Temp(entry.stamp)] == entry.body)
    case Committed => true
    case Capping(_, _, files, _, _) => EntriesAreKept(s, files)
    case Recovering(names, now) => now <= s.clock && forall n :: n in names && n.Claim? ==> n in s.claims
    case Reading(_, found) => EntriesAreKept(s, found)
    case Ready(todo, _) => EntriesAreKept(s, todo)
    case Claiming(todo, _, claim) =>
      ClaimIsSound(s, todo, claim) && claim !in s.dir
    case Uploading(todo, _, claim) =>
      ClaimIsSound(s, todo, claim) && (s.clock - claim.at < CLAIM_STALE_MS ==> claim in s.dir)
    case Settling(todo, _, claim, remove, _) =>
      && ClaimIsSound(s, todo, claim) && (remove ==> claim.stamp in s.ended)
      && (s.clock - claim.at < CLAIM_STALE_MS ==> claim in s.dir)
  }

  ghost predicate ClaimIsSound(s: System, todo: seq<Entry>, claim: Name) {
    && EntriesAreKept(s, todo) && todo != []
    && claim.Claim? && claim in s.claims && claim.stamp == todo[0].stamp && claim.at <= s.clock
  }

  /** No two workers hold one claim or spool one stamp, and a claim not yet made is on no recovery list. */
  ghost predicate WorkersAreApart(s: System) {
    && (forall v, w :: v in s.workers && w in s.workers && v != w && HasClaim(s.workers[v]) && HasClaim(s.workers[w])
          ==> s.workers[v].claim != s.workers[w].claim)
    && (forall v, w :: v in s.workers && w in s.workers && v != w && s.workers[v].Spooling? && s.workers[w].Spooling?
          ==> s.workers[v].entry.stamp != s.workers[w].entry.stamp)
    && (forall v, w :: v in s.workers && w in s.workers && s.workers[v].Claiming? && s.workers[w].Recovering?
          ==> s.workers[v].claim !in s.workers[w].names)
  }

  ghost predicate HistoryIsSound(s: System) {
    && (forall n :: n in s.dir && n.Claim? ==> n in s.claims)
    && (forall stamp :: stamp in s.kept ==> stamp in s.stamps)
    && (forall n :: n in s.dir && n.Temp? ==> n.stamp in s.stamps)
  }

  ghost predicate WorkersAreSound(s: System) {
    forall w :: w in s.workers ==> WorkerIsSound(s, s.workers[w])
  }

  ghost predicate Inv(s: System) {
    FilesAreCaptures(s) && NothingIsLost(s) && WorkersAreApart(s) && HistoryIsSound(s) && WorkersAreSound(s)
  }

  // ── The small changes that moves are made of ──────────────────────────────

  /** Only workers, the clock and what was drawn have changed. */
  ghost predicate SameFiles(s: System, s': System) {
    && s'.dir == s.dir && s'.kept == s.kept && s.ended.Keys <= s'.ended.Keys
    && s.stamps <= s'.stamps && s.claims <= s'.claims && s.clock <= s'.clock
  }

  lemma FilesStaySound(s: System, s': System)
    requires FilesAreCaptures(s) && NothingIsLost(s) && HistoryIsSound(s)
    requires SameFiles(s, s')
    ensures FilesAreCaptures(s') && NothingIsLost(s') && HistoryIsSound(s')
  {
    assert FilesAreCaptures(s') by { hide NothingIsLost, HistoryIsSound; }
    assert HistoryIsSound(s') by { hide NothingIsLost, FilesAreCaptures; }
    hide FilesAreCaptures, HistoryIsSound;
    forall stamp | stamp in s'.kept && stamp !in s'.ended ensures exists n :: HeldAt(s', stamp, n) {
      var n :| HeldAt(s, stamp, n);
      assert HeldAt(s', stamp, n);
    }
  }

  /** What a change of everything else must leave as it was for a worker to stay sound. */
  ghost predicate Suits(s: System, s': System, x: Worker) {
    && (forall stamp :: stamp in s.kept ==> stamp in s'.kept && s'.kept[stamp] == s.kept[stamp])
    && s.stamps <= s'.stamps && s.claims <= s'.claims && s.clock <= s'.clock && s.ended.Keys <= s'.ended.Keys
    && (x.Spooling? ==>
          && (x.entry.stamp in s'.kept ==> x.entry.stamp in s.kept)
          && (Temp(x.entry.stamp) in s'.dir ==> Temp(x.entry.stamp) in s.dir && s'.dir[Temp(x.entry.stamp)] == s.dir[Temp(x.entry.stamp)]))
    && (x.Claiming? ==> x.claim in s'.dir ==> x.claim in s.dir)
    && (HoldsFile(x) && x.claim.Claim? && s'.clock - x.claim.at < CLAIM_STALE_MS ==> x.claim in s.dir ==> x.claim in s'.dir)
  }

  lemma EntriesStayKept(s: System, s': System, entries: seq<Entry>)
    requires EntriesAreKept(s, entries)
    requires forall stamp :: stamp in s.kept ==> stamp in s'.kept && s'.kept[stamp] == s.kept[stamp]
    ensures EntriesAreKept(s', entries)
  {
  }

  lemma WorkerStaysSound(s: System, s': System, x: Worker)
    requires WorkerIsSound(s, x) && Suits(s, s', x)
    ensures WorkerIsSound(s', x)
  {
    hide EntriesAreKept;
    match x
    case Capping(_, _, files, _, _) => EntriesStayKept(s, s', files);
    case Reading(_, found) => EntriesStayKept(s, s', found);
    case Ready(todo, _) => EntriesStayKept(s, s', todo);
    case Claiming(todo, _, _) => EntriesStayKept(s, s', todo);
    case Uploading(todo, _, _) => EntriesStayKept(s, s', todo);
    case Settling(todo, _, _, _, _) => EntriesStayKept(s, s', todo);
    case _ =>
  }

  lemma WorkersStaySound(s: System, s': System)
    requires WorkersAreSound(s) && s'.workers == s.workers
    requires forall w :: w in s.workers ==> Suits(s, s', s.workers[w])
    ensures WorkersAreSound(s')
  {
    forall w | w in s'.workers ensures WorkerIsSound(s', s'.workers[w]) {
      hide Suits, WorkerIsSound;
      assert WorkerIsSound(s, s.workers[w]) && Suits(s, s', s.workers[w]);
      WorkerStaysSound(s, s', s.workers[w]);
    }
  }

  /** The clock, the drawn names or the ends of captures go forward. */
  lemma HistoryGrows(s: System, s': System)
    requires Inv(s) && SameFiles(s, s') && s'.workers == s.workers
    ensures Inv(s')
  {
    assert forall w :: w in s.workers ==> Suits(s, s', s.workers[w]);
    hide SameFiles, Suits;
    assert FilesAreCaptures(s') && NothingIsLost(s') && HistoryIsSound(s') by { FilesStaySound(s, s'); }
    hide FilesAreCaptures, NothingIsLost, HistoryIsSound;
    assert WorkersAreSound(s') by { WorkersStaySound(s, s'); }
    hide WorkersAreSound;
  }

  lemma WorkerEnds(s: System, w: nat)
    requires Inv(s)
    ensures Inv(s.(workers := s.workers - {w}))
  {
    var s' := s.(workers := s.workers - {w});
    assert FilesAreCaptures(s') && NothingIsLost(s') && HistoryIsSound(s') by { FilesStaySound(s, s'); }
    hide FilesAreCaptures, NothingIsLost, HistoryIsSound;
    assert WorkersAreSound(s') by {
      hide WorkersAreApart;
      forall v | v in s'.workers ensures WorkerIsSound(s', s'.workers[v]) {
        assert WorkerIsSound(s, s.workers[v]);
        WorkerStaysSound(s, s', s.workers[v]);
      }
    }
    hide WorkersAreSound;
  }

  /** A worker's new position does not clash with the other workers. */
  ghost predicate FitsIn(s: System, w: nat, x: Worker) {
    && (HasClaim(x) ==> forall v :: v in s.workers && v != w && HasClaim(s.workers[v]) ==> s.workers[v].claim != x.claim)
    && (x.Spooling? ==> forall v :: v in s.workers && v != w && s.workers[v].Spooling? ==> s.workers[v].entry.stamp != x.entry.stamp)
    && (x.Claiming? ==> forall v :: v in s.workers && v != w && s.workers[v].Recovering? ==> x.claim !in s.workers[v].names)
    && (x.Recovering? ==> forall v :: v in s.workers && v != w && s.workers[v].Claiming? ==> s.workers[v].claim !in x.names)
  }

  lemma StillApart(s: System, w: nat, x: Worker)
    requires WorkersAreApart(s) && FitsIn(s, w, x)
    ensures WorkersAreApart(s.(workers := s.workers[w := x]))
  {
    var s' := s.(workers := s.workers[w := x]);
    forall u, v | u in s'.workers && v in s'.workers && u != v && HasClaim(s'.workers[u]) && HasClaim(s'.workers[v])
      ensures s'.workers[u].claim != s'.workers[v].claim
    {
      assert u != w ==> s'.workers[u] == s.workers[u];
      assert v != w ==> s'.workers[v] == s.workers[v];
    }
  }

  /** A worker begins or changes its position and nothing else changes. */
  lemma WorkerMoves(s: System, w: nat, x: Worker)
    requires Inv(s) && WorkerIsSound(s, x) && FitsIn(s, w, x)
    ensures Inv(s.(workers := s.workers[w := x]))
  {
    var s' := s.(workers := s.workers[w := x]);
    assert WorkersAreApart(s') by { StillApart(s, w, x); }
    hide WorkersAreApart, FitsIn;
    assert FilesAreCaptures(s') && NothingIsLost(s') && HistoryIsSound(s') by { FilesStaySound(s, s'); }
    hide FilesAreCaptures, NothingIsLost, HistoryIsSound;
    assert WorkersAreSound(s') by {
      forall v | v in s'.workers ensures WorkerIsSound(s', s'.workers[v]) {
        var y := s'.workers[v];
        assert WorkerIsSound(s, y);
        assert Suits(s, s', y);
        hide WorkerIsSound;
        WorkerStaysSound(s, s', y);
      }
    }
    hide WorkersAreSound;
  }

  lemma FilesAfterMoving(s: System, from: Name, to: Name)
    requires FilesAreCaptures(s) && NothingIsLost(s) && HistoryIsSound(s) && from in s.dir && from != to
    requires !from.Temp? && !to.Temp? && from.stamp == to.stamp
    requires to.Claim? ==> to in s.claims
    ensures var s' := s.(dir := Renamed(s.dir, from, to)); FilesAreCaptures(s') && NothingIsLost(s') && HistoryIsSound(s')
    ensures to !in s.dir
  {
    var s' := s.(dir := Renamed(s.dir, from, to));
    assert FilesAreCaptures(s') && to !in s.dir by { hide NothingIsLost, HistoryIsSound; }
    assert HistoryIsSound(s') by { hide NothingIsLost, FilesAreCaptures; }
    hide FilesAreCaptures, HistoryIsSound;
    forall stamp | stamp in s'.kept && stamp !in s'.ended ensures exists n :: HeldAt(s', stamp, n) {
      var n :| HeldAt(s, stamp, n);
      assert HeldAt(s', stamp, if n == from then to else n);
    }
  }

  /** A capture's file gets another of its names. */
  lemma FileMoves(s: System, from: Name, to: Name)
    requires Inv(s) && from in s.dir && from != to
    requires !from.Temp? && !to.Temp? && from.stamp == to.stamp
    requires to.Claim? ==> to in s.claims
    requires forall v :: v in s.workers && HoldsFile(s.workers[v]) && s.workers[v].claim == from ==> from.Claim? && s.clock - from.at >= CLAIM_STALE_MS
    requires forall v :: v in s.workers && s.workers[v].Claiming? ==> s.workers[v].claim != to
    ensures Inv(s.(dir := Renamed(s.dir, from, to)))
    ensures to !in s.dir
  {
    var s' := s.(dir := Renamed(s.dir, from, to));
    assert forall w :: w in s.workers ==> Suits(s, s', s.workers[w]);
    hide Suits;
    FilesAfterMoving(s, from, to);
    hide FilesAreCaptures, NothingIsLost, HistoryIsSound;
    assert WorkersAreSound(s') by {
      hide WorkersAreSound, WorkersAreApart;
      WorkersStaySound(s, s');
    }
    hide WorkersAreSound;
  }

  /** A file goes: a temporary one, or that of a capture that has come to an end. */
  lemma FileGoes(s: System, n: Name)
    requires Inv(s)
    requires n.Temp? || n.stamp in s.ended
    requires forall v :: v in s.workers && HoldsFile(s.workers[v]) && s.workers[v].claim == n ==> n.Claim? && s.clock - n.at >= CLAIM_STALE_MS
    ensures Inv(s.(dir := s.dir - {n}))
  {
    var s' := s.(dir := s.dir - {n});
    assert forall w :: w in s.workers ==> Suits(s, s', s.workers[w]);
    assert WorkersAreSound(s') by {
      hide Suits, WorkerIsSound, FilesAreCaptures, NothingIsLost, WorkersAreApart, HistoryIsSound;
      WorkersStaySound(s, s');
    }
    hide Suits, WorkersAreSound;
    assert FilesAreCaptures(s') by { hide NothingIsLost, HistoryIsSound, WorkersAreApart; }
    hide FilesAreCaptures;
    assert HistoryIsSound(s') by { hide NothingIsLost, WorkersAreApart; }
    hide HistoryIsSound;
    assert WorkersAreApart(s');
    hide WorkersAreApart;
    forall stamp | stamp in s'.kept && stamp !in s'.ended ensures exists m :: HeldAt(s', stamp, m) {
      var m :| HeldAt(s, stamp, m);
      assert HeldAt(s', stamp, m);
    }
  }

  lemma TempAppears(s: System, entry: Entry)
    requires Inv(s) && entry.stamp !in s.stamps
    ensures Inv(s.(dir := s.dir[Temp(entry.stamp) := entry.body], stamps := s.stamps + {entry.stamp}))
  {
    var s' := s.(dir := s.dir[Temp(entry.stamp) := entry.body], stamps := s.stamps + {entry.stamp});
    forall w | w in s.workers ensures Suits(s, s', s.workers[w]) {
      assert WorkerIsSound(s, s.workers[w]);
    }
    assert WorkersAreSound(s') by {
      hide Suits, WorkerIsSound, FilesAreCaptures, NothingIsLost, WorkersAreApart, HistoryIsSound;
      WorkersStaySound(s, s');
    }
    hide Suits, WorkersAreSound, WorkerIsSound;
    assert FilesAreCaptures(s') by { hide NothingIsLost, HistoryIsSound, WorkersAreApart; }
    hide FilesAreCaptures;
    assert HistoryIsSound(s') by { hide NothingIsLost, WorkersAreApart; }
    hide HistoryIsSound;
    assert WorkersAreApart(s');
    hide WorkersAreApart;
    assert forall stamp, n :: HeldAt(s, stamp, n) ==> HeldAt(s', stamp, n);
  }

  lemma FilesAfterKeeping(s: System, s': System, entry: Entry)
    requires FilesAreCaptures(s) && NothingIsLost(s) && HistoryIsSound(s)
    requires entry.stamp !in s.kept && entry.stamp in s.stamps
    requires Temp(entry.stamp) in s.dir && s.dir[Temp(entry.stamp)] == entry.body
    requires s' == s.(dir := Renamed(s.dir, Temp(entry.stamp), Spool(entry.stamp)), kept := s.kept[entry.stamp := entry.body])
    ensures FilesAreCaptures(s') && NothingIsLost(s') && HistoryIsSound(s')
  {
    assert FilesAreCaptures(s') by { hide NothingIsLost, HistoryIsSound; }
    assert HistoryIsSound(s') by { hide NothingIsLost; }
    assert forall n :: n in s.dir && n != Temp(entry.stamp) ==> n in s'.dir;
    assert Spool(entry.stamp) in s'.dir;
    hide FilesAreCaptures, HistoryIsSound, Renamed;
    forall stamp | stamp in s'.kept && stamp !in s'.ended ensures exists n :: HeldAt(s', stamp, n) {
      if stamp == entry.stamp {
        assert HeldAt(s', stamp, Spool(stamp));
      } else {
        var n :| HeldAt(s, stamp, n);
        assert HeldAt(s', stamp, n);
      }
    }
  }

  lemma SuitsKeeping(s: System, s': System, entry: Entry, x: Worker)
    requires WorkerIsSound(s, x) && entry.stamp !in s.kept
    requires x.Spooling? ==> x.entry.stamp != entry.stamp
    requires s' == s.(dir := Renamed(s.dir, Temp(entry.stamp), Spool(entry.stamp)), kept := s.kept[entry.stamp := entry.body])
    ensures Suits(s, s', x)
  {
    hide EntriesAreKept;
  }

  lemma CaptureIsKept(s: System, entry: Entry)
    requires Inv(s) && entry.stamp !in s.kept && entry.stamp in s.stamps
    requires Temp(entry.stamp) in s.dir && s.dir[Temp(entry.stamp)] == entry.body
    requires forall v :: v in s.workers && s.workers[v].Spooling? ==> s.workers[v].entry.stamp != entry.stamp
    ensures Inv(s.(dir := Renamed(s.dir, Temp(entry.stamp), Spool(entry.stamp)), kept := s.kept[entry.stamp := entry.body]))
  {
    var s' := s.(dir := Renamed(s.dir, Temp(entry.stamp), Spool(entry.stamp)), kept := s.kept[entry.stamp := entry.body]);
    assert FilesAreCaptures(s') && NothingIsLost(s') && HistoryIsSound(s') by { FilesAfterKeeping(s, s', entry); }
    assert WorkersAreApart(s');
    hide FilesAreCaptures, NothingIsLost, HistoryIsSound, WorkersAreApart;
    assert WorkersAreSound(s') by {
      hide Suits, WorkerIsSound;
      forall w | w in s.workers ensures Suits(s, s', s.workers[w]) {
        SuitsKeeping(s, s', entry, s.workers[w]);
      }
      WorkersStaySound(s, s');
    }
    hide WorkersAreSound;
  }
}
