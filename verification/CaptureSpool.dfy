/**
 The retry spool for captures that could not be uploaded (integrations/agent-hooks-core/core.js).

 Several processes share one directory, one file per kept capture.  A flush claims a file by an
 atomic rename, uploads it, and removes it or renames it back; abandoned claims are renamed back
 by a later flush.  The model takes one file system operation as one step and lets the steps of
 any number of workers, and crashes, interleave freely.
 */
module CaptureSpool {
  import opened JsText

  const MAX_ENTRIES := 20
  const MAX_BYTES := 5 * 1024 * 1024
  const CLAIM_STALE_MS := 5 * 60 * 1000
  const MAX_PER_FLUSH := 2

  /** The names that occur in the directory; SpoolNames relates them to their texts. */
  datatype Name =
    | Temp(stamp: string)
    | Spool(stamp: string)
    | Claim(stamp: string, pid: nat, at: nat, rand: string)

  datatype Entry = Entry(stamp: string, body: string)

  /** How a kept capture came to its end. */
  datatype Fate = Delivered | Refused | Dropped

  datatype Result = Threw | Accepted | Rejected | Failed

  /**
   Where a call of spoolCapture or flushCaptureSpool stands between two steps.  Of a capping worker,
   `listed` and `removed` record what it listed and what it has removed; the steps do not look at them.
   */
  datatype Worker =
    | Spooling(entry: Entry)
    | Committed
    | Capping(listed: seq<Entry>, removed: set<string>, files: seq<Entry>, excess: int, total: int)
    | Recovering(names: seq<Name>, now: nat)
    | Reading(stamps: seq<string>, found: seq<Entry>)
    | Ready(todo: seq<Entry>, sent: nat)
    | Claiming(todo: seq<Entry>, sent: nat, claim: Name)
    | Uploading(todo: seq<Entry>, sent: nat, claim: Name)
    | Settling(todo: seq<Entry>, sent: nat, claim: Name, remove: bool, goOn: bool)

  /**
   The directory, the clock and the workers; and the history that the results speak about: what was
   kept, what came to an end and how, and which stamps and claim names were ever drawn.
   */
  datatype System = System(
    dir: map<Name, string>, clock: nat, workers: map<nat, Worker>,
    kept: map<string, string>, ended: map<string, Fate>, stamps: set<string>, claims: set<Name>)

  const EMPTY := System(map[], 0, map[], map[], map[], {}, {})

  datatype Move =
    | Tick(ms: nat)
    | WriteTemp(w: nat, entry: Entry)
    | Commit(w: nat)
    | Abort(w: nat)
    | ListForCaps(w: nat, files: seq<Entry>)
    | CapStep(w: nat)
    | StartFlush(w: nat, names: seq<Name>)
    | RecoverStep(w: nat)
    | ListSpool(w: nat, stamps: seq<string>)
    | ReadStep(w: nat, readable: bool)
    | DrawClaim(w: nat, rand: string)
    | Stop(w: nat)
    | RenameToClaim(w: nat)
    | Answer(w: nat, answer: Result)
    | Settle(w: nat)
    | Crash(w: nat)

  function Sizes(files: seq<Entry>): nat {
    if files == [] then 0 else |files[0].body| + Sizes(files[1..])
  }

  /** The spool files of the directory, each once, oldest name first. */
  ghost predicate IsListing(dir: map<Name, string>, stamps: seq<string>) {
    && (forall i :: 0 <= i < |stamps| ==> Spool(stamps[i]) in dir)
    && (forall s :: Spool(s) in dir ==> s in stamps)
    && (forall i, j :: 0 <= i < j < |stamps| ==> Less(stamps[i], stamps[j]))
  }

  function Stamps(files: seq<Entry>): seq<string> {
    seq(|files|, i requires 0 <= i < |files| => files[i].stamp)
  }

  ghost predicate Enabled(s: System, move: Move) {
    match move
    case Tick(_) => true
    case WriteTemp(w, entry) => w !in s.workers && entry.stamp !in s.stamps
    case StartFlush(w, names) => w !in s.workers && forall n :: n in names <==> n in s.dir
    case Commit(w) => w in s.workers && s.workers[w].Spooling? && Temp(s.workers[w].entry.stamp) in s.dir
    case Abort(w) => w in s.workers && s.workers[w].Spooling?
    case ListForCaps(w, files) =>
      && w in s.workers && s.workers[w].Committed?
      && IsListing(s.dir, Stamps(files)) && forall e :: e in files ==> Spool(e.stamp) in s.dir && s.dir[Spool(e.stamp)] == e.body
    case CapStep(w) => w in s.workers && s.workers[w].Capping?
    case RecoverStep(w) => w in s.workers && s.workers[w].Recovering? && s.workers[w].names != []
    case ListSpool(w, stamps) =>
      w in s.workers && s.workers[w].Recovering? && s.workers[w].names == [] && IsListing(s.dir, stamps)
    case ReadStep(w, _) => w in s.workers && s.workers[w].Reading?
    case DrawClaim(w, rand) =>
      && w in s.workers && s.workers[w].Ready? && s.workers[w].todo != [] && s.workers[w].sent < MAX_PER_FLUSH
      && Claim(s.workers[w].todo[0].stamp, w, s.clock, rand) !in s.claims
    case Stop(w) => w in s.workers && s.workers[w].Ready?
    case RenameToClaim(w) => w in s.workers && s.workers[w].Claiming? && s.workers[w].todo != []
    case Answer(w, _) => w in s.workers && s.workers[w].Uploading? && s.workers[w].todo != []
    case Settle(w) => w in s.workers && s.workers[w].Settling? && s.workers[w].todo != []
    case Crash(w) => w in s.workers
  }

  /** Renames a file that is there, over whatever has the new name; otherwise nothing happens. */
  function Renamed(dir: map<Name, string>, from: Name, to: Name): map<Name, string> {
    if from in dir then (dir - {from})[to := dir[from]] else dir
  }

  function Over(files: seq<Entry>, excess: int, total: int): bool {
    files != [] && (excess > 0 || total > MAX_BYTES)
  }

  function NextFree(todo: seq<Entry>, sent: nat, goOn: bool, s: System, w: nat): System
    requires todo != []
  {
    if goOn then s.(workers := s.workers[w := Ready(todo[1..], sent)]) else s.(workers := s.workers - {w})
  }

  // ── One step ──────────────────────────────────────────────────────────────

  function CapStepped(s: System, w: nat): (r: System)
    requires w in s.workers && s.workers[w].Capping?
    ensures r.kept == s.kept
  {
    var Capping(listed, removed, files, excess, total) := s.workers[w];
    if !Over(files, excess, total) then s.(workers := s.workers - {w})
    else
      var file := Spool(files[0].stamp);
      if file in s.dir then
        s.(dir := s.dir - {file}, ended := s.ended[file.stamp := Dropped],
           workers := s.workers[w := Capping(listed, removed + {file.stamp}, files[1..], excess - 1, total - |files[0].body|)])
      else s.(workers := s.workers[w := Capping(listed, removed, files[1..], excess, total)])
  }

  function Recovered(s: System, w: nat): (r: System)
    requires w in s.workers && s.workers[w].Recovering? && s.workers[w].names != []
    ensures r.kept == s.kept
  {
    var Recovering(names, now) := s.workers[w];
    var n := names[0];
    var dir := if n.Claim? && now - n.at >= CLAIM_STALE_MS then Renamed(s.dir, n, Spool(n.stamp)) else s.dir;
    s.(dir := dir, workers := s.workers[w := Recovering(names[1..], now)])
  }

  function ReadOn(s: System, w: nat, readable: bool): (r: System)
    requires w in s.workers && s.workers[w].Reading?
    ensures r.kept == s.kept
  {
    var Reading(stamps, found) := s.workers[w];
    if stamps == [] then
      if found == [] then s.(workers := s.workers - {w}) else s.(workers := s.workers[w := Ready(found, 0)])
    else
      var file := Spool(stamps[0]);
      var more := if readable && file in s.dir then [Entry(stamps[0], s.dir[file])] else [];
      s.(workers := s.workers[w := Reading(stamps[1..], found + more)])
  }

  function Renaming(s: System, w: nat): (r: System)
    requires w in s.workers && s.workers[w].Claiming? && s.workers[w].todo != []
    ensures r.kept == s.kept
  {
    var Claiming(todo, sent, claim) := s.workers[w];
    if Spool(todo[0].stamp) in s.dir then
      s.(dir := Renamed(s.dir, Spool(todo[0].stamp), claim), workers := s.workers[w := Uploading(todo, sent + 1, claim)])
    else s.(workers := s.workers[w := Ready(todo[1..], sent)])
  }

  function Answered(s: System, w: nat, answer: Result): (r: System)
    requires w in s.workers && s.workers[w].Uploading? && s.workers[w].todo != []
    ensures r.kept == s.kept
  {
    var Uploading(todo, sent, claim) := s.workers[w];
    var stamp := todo[0].stamp;
    var ended := match answer case Accepted => s.ended[stamp := Delivered] case Rejected => s.ended[stamp := Refused] case _ => s.ended;
    s.(ended := ended,
       workers := s.workers[w := Settling(todo, sent, claim, answer.Accepted? || answer.Rejected?, answer.Accepted?)])
  }

  function Settled(s: System, w: nat): (r: System)
    requires w in s.workers && s.workers[w].Settling? && s.workers[w].todo != []
    ensures r.kept == s.kept
  {
    var Settling(todo, sent, claim, remove, goOn) := s.workers[w];
    var dir := if remove then s.dir - {claim} else Renamed(s.dir, claim, Spool(todo[0].stamp));
    NextFree(todo, sent, goOn, s.(dir := dir), w)
  }

  function Next(s: System, move: Move): System
    requires Enabled(s, move)
  {
    match move
    case Tick(ms) => s.(clock := s.clock + ms)
    case WriteTemp(w, entry) =>
      s.(dir := s.dir[Temp(entry.stamp) := entry.body], stamps := s.stamps + {entry.stamp},
         workers := s.workers[w := Spooling(entry)])
    case Commit(w) =>
      var entry := s.workers[w].entry;
      s.(dir := Renamed(s.dir, Temp(entry.stamp), Spool(entry.stamp)), kept := s.kept[entry.stamp := entry.body],
         workers := s.workers[w := Committed])
    case Abort(w) =>
      s.(dir := s.dir - {Temp(s.workers[w].entry.stamp)}, workers := s.workers - {w})
    case ListForCaps(w, files) =>
      s.(workers := s.workers[w := Capping(files, {}, files, |files| - MAX_ENTRIES, Sizes(files))])
    case CapStep(w) => CapStepped(s, w)
    case StartFlush(w, names) => s.(workers := s.workers[w := Recovering(names, s.clock)])
    case RecoverStep(w) => Recovered(s, w)
    case ListSpool(w, stamps) => s.(workers := s.workers[w := Reading(stamps, [])])
    case ReadStep(w, readable) => ReadOn(s, w, readable)
    case DrawClaim(w, rand) =>
      var Ready(todo, sent) := s.workers[w];
      var claim := Claim(todo[0].stamp, w, s.clock, rand);
      s.(claims := s.claims + {claim}, workers := s.workers[w := Claiming(todo, sent, claim)])
    case Stop(w) => s.(workers := s.workers - {w})
    case RenameToClaim(w) => Renaming(s, w)
    case Answer(w, answer) => Answered(s, w, answer)
    case Settle(w) => Settled(s, w)
    case Crash(w) => s.(workers := s.workers - {w})
  }

  /** The moves lead from one state to the other, each of them possible when its turn comes. */
  ghost predicate Run(s: System, moves: seq<Move>, t: System)
    decreases |moves|
  {
    if moves == [] then s == t else Enabled(s, moves[0]) && Run(Next(s, moves[0]), moves[1..], t)
  }

  ghost predicate Reachable(s: System) {
    exists moves :: Run(EMPTY, moves, s)
  }

  /** The capture with this stamp lies in the directory under this name. */
  ghost predicate HeldAt(s: System, stamp: string, n: Name) {
    n in s.dir && !n.Temp? && n.stamp == stamp
  }
}
