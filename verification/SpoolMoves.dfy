/** Every move of the retry spool's protocol keeps the invariant (integrations/agent-hooks-core/core.js). */
module SpoolMoves {
  import opened CaptureSpool
  import opened SpoolInvariant

  lemma SoundWorker(s: System, w: nat)
    requires Inv(s) && w in s.workers
    ensures WorkerIsSound(s, s.workers[w])
  {
  }

  lemma WriteTempKeepsInv(s: System, w: nat, entry: Entry)
    requires Inv(s) && Enabled(s, WriteTemp(w, entry))
    ensures Inv(Next(s, WriteTemp(w, entry)))
  {
    var s1 := s.(dir := s.dir[Temp(entry.stamp) := entry.body], stamps := s.stamps + {entry.stamp});
    forall v | v in s.workers && s.workers[v].Spooling? ensures s.workers[v].entry.stamp in s.stamps {
      SoundWorker(s, v);
    }
    assert entry.stamp !in s.kept;
    hide Inv;
    TempAppears(s, entry);
    WorkerMoves(s1, w, Spooling(entry));
  }

  lemma CommitKeepsInv(s: System, w: nat)
    requires Inv(s) && Enabled(s, Commit(w))
    ensures Inv(Next(s, Commit(w)))
  {
    SoundWorker(s, w);
    var entry := s.workers[w].entry;
    var s1 := s.(workers := s.workers[w := Committed]);
    assert forall v :: v in s1.workers && s1.workers[v].Spooling? ==> s1.workers[v].entry.stamp != entry.stamp;
    hide Inv;
    WorkerMoves(s, w, Committed);
    CaptureIsKept(s1, entry);
  }

  lemma AbortKeepsInv(s: System, w: nat)
    requires Inv(s) && Enabled(s, Abort(w))
    ensures Inv(Next(s, Abort(w)))
  {
    var temp := Temp(s.workers[w].entry.stamp);
    HolderHasClaim(s, temp);
    hide Inv;
    FileGoes(s, temp);
    WorkerEnds(s.(dir := s.dir - {temp}), w);
  }

  /** No worker claims under a name that is not a claim. */
  lemma HolderHasClaim(s: System, n: Name)
    requires Inv(s) && !n.Claim?
    ensures forall v :: v in s.workers && HasClaim(s.workers[v]) ==> s.workers[v].claim != n
  {
    forall v | v in s.workers && HasClaim(s.workers[v]) ensures s.workers[v].claim != n {
      SoundWorker(s, v);
    }
  }

  lemma ListedAreKept(s: System, files: seq<Entry>)
    requires Inv(s)
    requires forall e :: e in files ==> Spool(e.stamp) in s.dir && s.dir[Spool(e.stamp)] == e.body
    ensures EntriesAreKept(s, files)
  {
  }

  lemma ListForCapsKeepsInv(s: System, w: nat, files: seq<Entry>)
    requires Inv(s) && Enabled(s, ListForCaps(w, files))
    ensures Inv(Next(s, ListForCaps(w, files)))
  {
    hide IsListing;
    ListedAreKept(s, files);
    hide Inv;
    WorkerMoves(s, w, Capping(files, {}, files, |files| - MAX_ENTRIES, Sizes(files)));
  }

  lemma RestIsKept(s: System, entries: seq<Entry>)
    requires EntriesAreKept(s, entries) && entries != []
    ensures EntriesAreKept(s, entries[1..])
    ensures entries[0].stamp in s.kept
  {
    assert entries[0] in entries;
  }

  lemma CapSkips(s: System, w: nat, x: Worker)
    requires Inv(s) && x.Capping? && EntriesAreKept(s, x.files)
    ensures Inv(s.(workers := s.workers[w := x]))
  {
    hide Inv, EntriesAreKept;
    WorkerMoves(s, w, x);
  }

  lemma ListIsKept(s: System, w: nat)
    requires Inv(s) && w in s.workers && s.workers[w].Capping?
    ensures EntriesAreKept(s, s.workers[w].files)
  {
    SoundWorker(s, w);
  }

  lemma CapStepKeepsInv(s: System, w: nat)
    requires Inv(s) && w in s.workers && s.workers[w].Capping?
    ensures Inv(CapStepped(s, w))
  {
    ListIsKept(s, w);
    var Capping(listed, removed, files, excess, total) := s.workers[w];
    if !Over(files, excess, total) {
      hide Inv;
      WorkerEnds(s, w);
    } else {
      RestIsKept(s, files);
      hide Inv, EntriesAreKept, Over;
      CapTakes(s, w, files[0].stamp, Capping(listed, removed + {files[0].stamp}, files[1..], excess - 1, total - |files[0].body|),
               Capping(listed, removed, files[1..], excess, total));
    }
  }

  lemma CapTakes(s: System, w: nat, stamp: string, dropped: Worker, skipped: Worker)
    requires Inv(s) && w in s.workers && dropped.Capping? && skipped.Capping?
    requires EntriesAreKept(s, dropped.files) && EntriesAreKept(s, skipped.files)
    ensures Spool(stamp) in s.dir ==>
      Inv(s.(dir := s.dir - {Spool(stamp)}, ended := s.ended[stamp := Dropped], workers := s.workers[w := dropped]))
    ensures Spool(stamp) !in s.dir ==> Inv(s.(workers := s.workers[w := skipped]))
  {
    hide Inv, EntriesAreKept;
    if Spool(stamp) in s.dir {
      CapDrops(s, w, stamp, dropped);
    } else {
      CapSkips(s, w, skipped);
    }
  }

  lemma CapDrops(s: System, w: nat, stamp: string, x: Worker)
    requires Inv(s) && w in s.workers && x.Capping? && EntriesAreKept(s, x.files)
    ensures Inv(s.(dir := s.dir - {Spool(stamp)}, ended := s.ended[stamp := Dropped], workers := s.workers[w := x]))
  {
    var file := Spool(stamp);
    HolderHasClaim(s, file);
    var s1 := s.(ended := s.ended[stamp := Dropped]);
    var s2 := s1.(dir := s.dir - {file});
    hide Inv;
    HistoryGrows(s, s1);
    FileGoes(s1, file);
    EntriesStayKept(s, s2, x.files);
    hide EntriesAreKept;
    WorkerMoves(s2, w, x);
  }

  lemma StartFlushKeepsInv(s: System, w: nat, names: seq<Name>)
    requires Inv(s) && Enabled(s, StartFlush(w, names))
    ensures Inv(Next(s, StartFlush(w, names)))
  {
    forall v | v in s.workers && s.workers[v].Claiming? ensures s.workers[v].claim !in names {
      SoundWorker(s, v);
    }
    hide FilesAreCaptures, NothingIsLost, WorkersAreApart;
    assert WorkerIsSound(s, Recovering(names, s.clock));
    hide Inv;
    WorkerMoves(s, w, Recovering(names, s.clock));
  }

  lemma StaleIsPutBack(s: System, n: Name, now: nat)
    requires Inv(s) && now <= s.clock && n.Claim? && now - n.at >= CLAIM_STALE_MS
    ensures Inv(s.(dir := Renamed(s.dir, n, Spool(n.stamp))))
  {
    HolderHasClaim(s, Spool(n.stamp));
    hide Inv;
    if n in s.dir {
      FileMoves(s, n, Spool(n.stamp));
    }
  }

  lemma RestFits(s: System, w: nat, names: seq<Name>, now: nat)
    requires Inv(s) && w in s.workers && s.workers[w] == Recovering(names, now) && names != []
    ensures WorkerIsSound(s, Recovering(names[1..], now)) && FitsIn(s, w, Recovering(names[1..], now))
  {
    SoundWorker(s, w);
    assert forall m :: m in names[1..] ==> m in names;
  }

  lemma RecoverStepKeepsInv(s: System, w: nat)
    requires Inv(s) && w in s.workers && s.workers[w].Recovering? && s.workers[w].names != []
    ensures Inv(Recovered(s, w))
  {
    SoundWorker(s, w);
    var Recovering(names, now) := s.workers[w];
    RestFits(s, w, names, now);
    var rest := Recovering(names[1..], now);
    hide Inv, FitsIn;
    assert Inv(s.(workers := s.workers[w := rest])) by { WorkerMoves(s, w, rest); }
    var n := names[0];
    if n.Claim? && now - n.at >= CLAIM_STALE_MS {
      hide WorkerIsSound;
      StaleIsPutBack(s.(workers := s.workers[w := rest]), n, now);
    }
  }

  lemma ListSpoolKeepsInv(s: System, w: nat, stamps: seq<string>)
    requires Inv(s) && Enabled(s, ListSpool(w, stamps))
    ensures Inv(Next(s, ListSpool(w, stamps)))
  {
    hide Inv, IsListing;
    WorkerMoves(s, w, Reading(stamps, []));
  }

  lemma ReadStepKeepsInv(s: System, w: nat, readable: bool)
    requires Inv(s) && w in s.workers && s.workers[w].Reading?
    ensures Inv(ReadOn(s, w, readable))
  {
    SoundWorker(s, w);
    var Reading(stamps, found) := s.workers[w];
    if stamps == [] {
      if found == [] {
        WorkerEnds(s, w);
      } else {
        hide Inv, EntriesAreKept;
        WorkerMoves(s, w, Ready(found, 0));
      }
    } else {
      var file := Spool(stamps[0]);
      var more := if readable && file in s.dir then [Entry(stamps[0], s.dir[file])] else [];
      ListedAreKept(s, more);
      hide Inv;
      assert EntriesAreKept(s, found + more);
      hide EntriesAreKept;
      WorkerMoves(s, w, Reading(stamps[1..], found + more));
    }
  }

  /** A claim name never drawn before is free everywhere. */
  lemma NewClaimFits(s: System, w: nat, todo: seq<Entry>, sent: nat, claim: Name)
    requires Inv(s) && claim.Claim? && claim !in s.claims
    ensures claim !in s.dir
    ensures FitsIn(s.(claims := s.claims + {claim}), w, Claiming(todo, sent, claim))
  {
    hide NothingIsLost, FilesAreCaptures, WorkersAreApart, EntriesAreKept;
    forall v | v in s.workers
      ensures HasClaim(s.workers[v]) ==> s.workers[v].claim != claim
      ensures s.workers[v].Recovering? ==> claim !in s.workers[v].names
    {
      SoundWorker(s, v);
    }
  }

  lemma ReadyIsKept(s: System, w: nat)
    requires Inv(s) && w in s.workers && s.workers[w].Ready?
    ensures EntriesAreKept(s, s.workers[w].todo)
  {
    SoundWorker(s, w);
  }

  lemma ClaimIsDrawn(s: System, w: nat, todo: seq<Entry>, sent: nat, claim: Name)
    requires Inv(s) && EntriesAreKept(s, todo) && todo != []
    requires claim.Claim? && claim !in s.claims && claim.stamp == todo[0].stamp && claim.at <= s.clock
    ensures Inv(s.(claims := s.claims + {claim}, workers := s.workers[w := Claiming(todo, sent, claim)]))
  {
    var s1 := s.(claims := s.claims + {claim});
    NewClaimFits(s, w, todo, sent, claim);
    hide Inv, FitsIn;
    HistoryGrows(s, s1);
    EntriesStayKept(s, s1, todo);
    hide EntriesAreKept;
    WorkerMoves(s1, w, Claiming(todo, sent, claim));
  }

  lemma DrawClaimKeepsInv(s: System, w: nat, rand: string)
    requires Inv(s) && Enabled(s, DrawClaim(w, rand))
    ensures Inv(Next(s, DrawClaim(w, rand)))
  {
    ReadyIsKept(s, w);
    hide Inv, EntriesAreKept;
    var Ready(todo, sent) := s.workers[w];
    ClaimIsDrawn(s, w, todo, sent, Claim(todo[0].stamp, w, s.clock, rand));
  }

  ghost predicate Unheld(s: System, n: Name) {
    forall v :: v in s.workers && HasClaim(s.workers[v]) ==> s.workers[v].claim != n
  }

  /** A worker that gives its claim up leaves it held by no other. */
  lemma OneHolder(s: System, w: nat, x: Worker)
    requires Inv(s) && w in s.workers && HasClaim(s.workers[w]) && !HasClaim(x)
    ensures Unheld(s.(workers := s.workers[w := x]), s.workers[w].claim)
    ensures Unheld(s.(workers := s.workers - {w}), s.workers[w].claim)
  {
  }

  lemma UploadBegins(s: System, w: nat, todo: seq<Entry>, sent: nat, claim: Name)
    requires Inv(s) && Unheld(s, claim) && ClaimIsSound(s, todo, claim) && Spool(claim.stamp) in s.dir
    ensures Inv(s.(dir := Renamed(s.dir, Spool(claim.stamp), claim), workers := s.workers[w := Uploading(todo, sent, claim)]))
  {
    var file := Spool(claim.stamp);
    HolderHasClaim(s, file);
    hide Inv;
    var s2 := s.(dir := Renamed(s.dir, file, claim));
    assert ClaimIsSound(s2, todo, claim) by { EntriesStayKept(s, s2, todo); }
    assert Inv(s2) by { hide EntriesAreKept; FileMoves(s, file, claim); }
    hide ClaimIsSound;
    WorkerMoves(s2, w, Uploading(todo, sent, claim));
  }

  lemma GivesUp(s: System, w: nat, todo: seq<Entry>, sent: nat, claim: Name)
    requires Inv(s) && w in s.workers && s.workers[w] == Claiming(todo, sent, claim)
    ensures var s1 := s.(workers := s.workers[w := Ready(todo, sent)]); Inv(s1) && Unheld(s1, claim)
    ensures ClaimIsSound(s.(workers := s.workers[w := Ready(todo, sent)]), todo, claim)
  {
    SoundWorker(s, w);
    OneHolder(s, w, Ready(todo, sent));
    hide Inv, Unheld;
    WorkerMoves(s, w, Ready(todo, sent));
  }

  lemma PutTwice<X>(m: map<nat, X>, k: nat, x: X, y: X)
    ensures m[k := x][k := y] == m[k := y]
  {
  }

  lemma ClaimIsMade(s: System, w: nat, todo: seq<Entry>, sent: nat, claim: Name)
    requires Inv(s) && w in s.workers && s.workers[w] == Claiming(todo, sent, claim)
    requires Spool(claim.stamp) in s.dir && claim.Claim?
    ensures Inv(s.(dir := Renamed(s.dir, Spool(claim.stamp), claim), workers := s.workers[w := Uploading(todo, sent + 1, claim)]))
  {
    hide Inv, Unheld, ClaimIsSound;
    GivesUp(s, w, todo, sent, claim);
    UploadBegins(s.(workers := s.workers[w := Ready(todo, sent)]), w, todo, sent + 1, claim);
    PutTwice(s.workers, w, Ready(todo, sent), Uploading(todo, sent + 1, claim));
  }

  lemma ClaimIsLost(s: System, w: nat, todo: seq<Entry>, sent: nat)
    requires Inv(s) && EntriesAreKept(s, todo) && todo != []
    ensures Inv(s.(workers := s.workers[w := Ready(todo[1..], sent)]))
  {
    RestIsKept(s, todo);
    hide Inv, EntriesAreKept;
    WorkerMoves(s, w, Ready(todo[1..], sent));
  }

  lemma TodoIsKept(s: System, w: nat)
    requires Inv(s) && w in s.workers && s.workers[w].Claiming? && s.workers[w].todo != []
    ensures EntriesAreKept(s, s.workers[w].todo)
    ensures s.workers[w].claim.Claim? && s.workers[w].claim.stamp == s.workers[w].todo[0].stamp
  {
    SoundWorker(s, w);
  }

  lemma RenameToClaimKeepsInv(s: System, w: nat)
    requires Inv(s) && w in s.workers && s.workers[w].Claiming? && s.workers[w].todo != []
    ensures Inv(Renaming(s, w))
  {
    TodoIsKept(s, w);
    hide Inv, EntriesAreKept;
    var Claiming(todo, sent, claim) := s.workers[w];
    if Spool(claim.stamp) in s.dir {
      ClaimIsMade(s, w, todo, sent, claim);
    } else {
      ClaimIsLost(s, w, todo, sent);
    }
  }

  /** An upload's position after its answer is sound and clashes with no other worker. */
  lemma AnswerFits(s: System, w: nat, remove: bool, goOn: bool)
    requires Inv(s) && w in s.workers && s.workers[w].Uploading?
    requires remove ==> s.workers[w].claim.stamp in s.ended
    ensures var x := s.workers[w]; var settling := Settling(x.todo, x.sent, x.claim, remove, goOn);
      WorkerIsSound(s, settling) && FitsIn(s, w, settling)
  {
    SoundWorker(s, w);
    hide EntriesAreKept;
  }

  lemma UploadEnds(s: System, w: nat, fate: Fate)
    requires Inv(s) && w in s.workers && s.workers[w].Uploading? && s.workers[w].todo != []
    ensures Inv(s.(ended := s.ended[s.workers[w].todo[0].stamp := fate]))
    ensures s.workers[w].claim.Claim? && s.workers[w].claim.stamp == s.workers[w].todo[0].stamp
  {
    SoundWorker(s, w);
    hide Inv, EntriesAreKept;
    HistoryGrows(s, s.(ended := s.ended[s.workers[w].todo[0].stamp := fate]));
  }

  lemma AnswerKeepsInv(s: System, w: nat, answer: Result)
    requires Inv(s) && w in s.workers && s.workers[w].Uploading? && s.workers[w].todo != []
    ensures Inv(Answered(s, w, answer))
  {
    hide Inv, FitsIn, WorkerIsSound;
    var Uploading(todo, sent, claim) := s.workers[w];
    var ends := answer.Accepted? || answer.Rejected?;
    var s1 := s;
    if ends {
      var fate := if answer.Accepted? then Delivered else Refused;
      UploadEnds(s, w, fate);
      s1 := s.(ended := s.ended[todo[0].stamp := fate]);
    }
    AnswerFits(s1, w, ends, answer.Accepted?);
    WorkerMoves(s1, w, Settling(todo, sent, claim, ends, answer.Accepted?));
  }

  lemma Released(s: System, claim: Name)
    requires Inv(s) && claim.Claim?
    requires Unheld(s, claim)
    ensures Inv(s.(dir := Renamed(s.dir, claim, Spool(claim.stamp))))
  {
    HolderHasClaim(s, Spool(claim.stamp));
    hide Inv;
    if claim in s.dir {
      FileMoves(s, claim, Spool(claim.stamp));
    }
  }

  lemma SettleKeepsInv(s: System, w: nat)
    requires Inv(s) && w in s.workers && s.workers[w].Settling? && s.workers[w].todo != []
    ensures Inv(Settled(s, w))
  {
    SoundWorker(s, w);
    var Settling(todo, sent, claim, remove, goOn) := s.workers[w];
    OneHolder(s, w, Ready(todo[1..], sent));
    hide Inv;
    assert EntriesAreKept(s, todo[1..]) by { RestIsKept(s, todo); }
    hide EntriesAreKept;
    var s1 := NextFree(todo, sent, goOn, s, w);
    assert Inv(s1) by {
      if goOn {
        WorkerMoves(s, w, Ready(todo[1..], sent));
      } else {
        WorkerEnds(s, w);
      }
    }
    hide WorkerIsSound;
    if remove {
      FileGoes(s1, claim);
    } else {
      hide Unheld;
      Released(s1, claim);
    }
  }

  lemma NextKeepsInv(s: System, move: Move)
    requires Inv(s) && Enabled(s, move)
    ensures Inv(Next(s, move))
  {
    hide Inv;
    match move
    case Tick(ms) => HistoryGrows(s, Next(s, move));
    case WriteTemp(w, entry) => WriteTempKeepsInv(s, w, entry);
    case Commit(w) => CommitKeepsInv(s, w);
    case Abort(w) => AbortKeepsInv(s, w);
    case ListForCaps(w, files) => ListForCapsKeepsInv(s, w, files);
    case CapStep(w) => CapStepKeepsInv(s, w);
    case StartFlush(w, names) => StartFlushKeepsInv(s, w, names);
    case RecoverStep(w) => RecoverStepKeepsInv(s, w);
    case ListSpool(w, stamps) => ListSpoolKeepsInv(s, w, stamps);
    case ReadStep(w, readable) => ReadStepKeepsInv(s, w, readable);
    case DrawClaim(w, rand) => DrawClaimKeepsInv(s, w, rand);
    case Stop(w) => WorkerEnds(s, w);
    case RenameToClaim(w) => RenameToClaimKeepsInv(s, w);
    case Answer(w, answer) => AnswerKeepsInv(s, w, answer);
    case Settle(w) => SettleKeepsInv(s, w);
    case Crash(w) => WorkerEnds(s, w);
  }
}
