/**
 The two passes over the retry spool's directory that run to the end in one go: putting stale
 claims back, and dropping the oldest kept captures beyond the caps
 (integrations/agent-hooks-core/core.js).
 */
module SpoolDirectory {
  import opened Decimals
  import opened Options
  import opened JsText
  import opened CaptureSpool
  import opened SpoolNames

  // ── Recovery on texts ─────────────────────────────────────────────────────

  function RenamedText(files: map<string, string>, from: string, to: string): map<string, string> {
    if from in files then (files - {from})[to := files[from]] else files
  }

  function RestoredOne(files: map<string, string>, text: string, now: nat, other: string -> Option<real>): map<string, string> {
    var claim := ReadClaim(text, other);
    if claim.None? || now as real - claim.value.at < CLAIM_STALE_MS as real then files
    else RenamedText(files, text, claim.value.name)
  }

  function Restored(files: map<string, string>, texts: seq<string>, now: nat, other: string -> Option<real>): map<string, string>
    decreases |texts|
  {
    if texts == [] then files else Restored(RestoredOne(files, texts[0], now, other), texts[1..], now, other)
  }

  // ── The caps ──────────────────────────────────────────────────────────────

  function SizeOf(files: map<string, string>, f: string): nat {
    if f in files then |files[f]| else 0
  }

  function TotalSize(files: map<string, string>, listing: seq<string>): nat {
    if listing == [] then 0 else SizeOf(files, listing[0]) + TotalSize(files, listing[1..])
  }

  function Stuck(listing: seq<string>, stuck: set<string>): seq<string> {
    if listing == [] then []
    else if listing[0] in stuck then [listing[0]] + Stuck(listing[1..], stuck)
    else Stuck(listing[1..], stuck)
  }

  /** What is left when the pass has gone over the first k files: those that could not be removed, and the rest. */
  function LeftAfter(listing: seq<string>, k: nat, stuck: set<string>): seq<string>
    requires k <= |listing|
  {
    Stuck(listing[..k], stuck) + listing[k..]
  }

  predicate OverCaps(files: map<string, string>, listing: seq<string>) {
    |listing| > MAX_ENTRIES || TotalSize(files, listing) > MAX_BYTES
  }

  /** The pass stops at k: as soon as what is left is within the caps, and otherwise at the end. */
  ghost predicate StopsAt(files: map<string, string>, listing: seq<string>, stuck: set<string>, k: nat) {
    && k <= |listing|
    && (k < |listing| ==> !OverCaps(files, LeftAfter(listing, k, stuck)))
    && forall j :: 0 <= j < k ==> OverCaps(files, LeftAfter(listing, j, stuck))
  }

  class Directory {
    var files: map<string, string>

    /** recoverStaleClaims; `texts` are the names found in the directory. */
    method RecoverStaleClaims(texts: seq<string>, now: nat, other: string -> Option<real>)
      modifies this
      ensures files == Restored(old(files), texts, now, other)
    {
      var k := 0;
      while k < |texts|
        invariant k <= |texts|
        invariant Restored(old(files), texts, now, other) == Restored(files, texts[k..], now, other)
      {
        var claim := ReadClaim(texts[k], other);
        if claim.Some? && now as real - claim.value.at >= CLAIM_STALE_MS as real {
          if texts[k] in files {
            files := (files - {texts[k]})[claim.value.name := files[texts[k]]];
          }
        }
        assert texts[k..][1..] == texts[k + 1..];
        k := k + 1;
      }
    }

    method TotalBytes(listing: seq<string>) returns (total: nat)
      requires forall f :: f in listing ==> f in files
      ensures total == TotalSize(files, listing)
    {
      total := 0;
      var i := 0;
      assert listing[0..] == listing;
      while i < |listing|
        invariant i <= |listing|
        invariant total + TotalSize(files, listing[i..]) == TotalSize(files, listing)
      {
        total := total + |files[listing[i]]|;
        assert listing[i..][1..] == listing[i + 1..];
        i := i + 1;
      }
    }

    /** enforceSpoolCaps; `listing` is the spool, oldest first, and `stuck` the files that cannot be removed. */
    method EnforceSpoolCaps(listing: seq<string>, stuck: set<string>) returns (dropped: int, stop: nat)
      requires IsSpool(files, listing)
      modifies this
      ensures StopsAt(old(files), listing, stuck, stop)
      ensures files == old(files) - GoneAfter(listing, stop, stuck)
      ensures dropped == |listing| - |LeftAfter(listing, stop, stuck)|
    {
      var total: int := TotalBytes(listing);
      var excess := |listing| - MAX_ENTRIES;
      dropped, stop := 0, 0;
      ghost var before := files;
      ItStarts(before, listing, stuck);
      hide LeftAfter, GoneAfter, TotalSize, IsSpool, StopsAt, OverCaps, Agrees, SizeOf;
      while stop < |listing| && (excess > 0 || total > MAX_BYTES)
        invariant stop <= |listing|
        invariant files == before - GoneAfter(listing, stop, stuck)
        invariant Agrees(before, listing, stop, stuck, excess, total, dropped)
        invariant OverBefore(before, listing, stop, stuck)
      {
        StillAgrees(before, listing, stop, stuck, excess, total, dropped);
        var x := listing[stop];
        OneMoreGone(before, listing, stop, stuck);
        if x !in stuck {
          excess, total, dropped := excess - 1, total - SizeOf(files, x), dropped + 1;
          files := files - {x};
        }
        stop := stop + 1;
      }
      ItStops(before, listing, stuck, stop, excess, total, dropped);
    }
  }

  /** The running numbers are those of what is left. */
  ghost predicate Agrees(files: map<string, string>, listing: seq<string>, k: nat, stuck: set<string>, excess: int, total: int, dropped: int)
    requires k <= |listing|
  {
    var left := LeftAfter(listing, k, stuck);
    excess == |left| - MAX_ENTRIES && total == TotalSize(files, left) && dropped == |listing| - |left|
  }

  ghost predicate OverBefore(files: map<string, string>, listing: seq<string>, k: nat, stuck: set<string>)
    requires k <= |listing|
  {
    forall j :: 0 <= j < k ==> OverCaps(files, LeftAfter(listing, j, stuck))
  }

  lemma ItStarts(files: map<string, string>, listing: seq<string>, stuck: set<string>)
    ensures files == files - GoneAfter(listing, 0, stuck) && OverBefore(files, listing, 0, stuck)
    ensures Agrees(files, listing, 0, stuck, |listing| - MAX_ENTRIES, TotalSize(files, listing), 0)
  {
    assert LeftAfter(listing, 0, stuck) == listing && GoneAfter(listing, 0, stuck) == {};
  }

  lemma StillAgrees(files: map<string, string>, listing: seq<string>, k: nat, stuck: set<string>, excess: int, total: int, dropped: int)
    requires k < |listing| && Agrees(files, listing, k, stuck, excess, total, dropped)
    requires excess > 0 || total > MAX_BYTES
    requires OverBefore(files, listing, k, stuck)
    ensures OverBefore(files, listing, k + 1, stuck)
    ensures if listing[k] in stuck then Agrees(files, listing, k + 1, stuck, excess, total, dropped)
      else Agrees(files, listing, k + 1, stuck, excess - 1, total - SizeOf(files, listing[k]), dropped + 1)
  {
    OneFurther(files, listing, k, stuck);
    hide LeftAfter, TotalSize;
  }

  lemma ItStops(files: map<string, string>, listing: seq<string>, stuck: set<string>, k: nat, excess: int, total: int, dropped: int)
    requires k <= |listing| && Agrees(files, listing, k, stuck, excess, total, dropped)
    requires k == |listing| || (excess <= 0 && total <= MAX_BYTES)
    requires OverBefore(files, listing, k, stuck)
    ensures StopsAt(files, listing, stuck, k)
    ensures dropped == |listing| - |LeftAfter(listing, k, stuck)|
  {
    hide LeftAfter, TotalSize;
  }

  /** The listing names files of the directory, each once. */
  ghost predicate IsSpool(files: map<string, string>, listing: seq<string>) {
    (forall f :: f in listing ==> f in files) && forall i, j :: 0 <= i < j < |listing| ==> listing[i] != listing[j]
  }

  /** What the pass has removed when it has gone over the first k files. */
  ghost function GoneAfter(listing: seq<string>, k: nat, stuck: set<string>): set<string>
    requires k <= |listing|
  {
    set f | f in listing[..k] && f !in stuck
  }

  lemma OneMoreGone(files: map<string, string>, listing: seq<string>, k: nat, stuck: set<string>)
    requires IsSpool(files, listing) && k < |listing|
    ensures var now, x := files - GoneAfter(listing, k, stuck), listing[k];
      (if x in stuck then now else now - {x}) == files - GoneAfter(listing, k + 1, stuck) && SizeOf(now, x) == SizeOf(files, x)
  {
    assert listing[..k + 1] == listing[..k] + [listing[k]];
    assert GoneAfter(listing, k + 1, stuck) == GoneAfter(listing, k, stuck) + if listing[k] in stuck then {} else {listing[k]};
  }

  lemma {:induction false} TotalOfConcat(files: map<string, string>, a: seq<string>, b: seq<string>)
    ensures TotalSize(files, a + b) == TotalSize(files, a) + TotalSize(files, b)
  {
    if a == [] {
      assert a + b == b;
    } else {
      assert (a + b)[1..] == a[1..] + b;
      TotalOfConcat(files, a[1..], b);
    }
  }

  lemma {:induction false} StuckOfConcat(a: seq<string>, b: seq<string>, stuck: set<string>)
    ensures Stuck(a + b, stuck) == Stuck(a, stuck) + Stuck(b, stuck)
  {
    if a == [] {
      assert a + b == b;
    } else {
      assert (a + b)[1..] == a[1..] + b;
      StuckOfConcat(a[1..], b, stuck);
    }
  }

  /** Going over one more file takes that file out of what is left, if it can be removed. */
  lemma OneFurther(files: map<string, string>, listing: seq<string>, k: nat, stuck: set<string>)
    requires k < |listing|
    ensures var now, next := LeftAfter(listing, k, stuck), LeftAfter(listing, k + 1, stuck);
      if listing[k] in stuck then next == now
      else |next| == |now| - 1 && TotalSize(files, next) == TotalSize(files, now) - SizeOf(files, listing[k])
  {
    var x := listing[k];
    var stay, rest := Stuck(listing[..k], stuck), listing[k + 1..];
    assert listing[..k + 1] == listing[..k] + [x];
    StuckOfConcat(listing[..k], [x], stuck);
    assert listing[k..] == [x] + rest;
    assert Stuck([x], stuck) == if x in stuck then [x] else [];
    hide Stuck;
    if x !in stuck {
      assert Stuck(listing[..k + 1], stuck) == stay;
      OneLess(files, stay, x, rest);
    } else {
      assert Stuck(listing[..k + 1], stuck) == stay + [x];
      assert stay + ([x] + rest) == stay + [x] + rest;
    }
  }

  lemma OneLess(files: map<string, string>, stay: seq<string>, x: string, rest: seq<string>)
    ensures TotalSize(files, stay + rest) == TotalSize(files, stay + ([x] + rest)) - SizeOf(files, x)
  {
    TotalOfConcat(files, stay, rest);
    TotalOfConcat(files, stay, [x] + rest);
    assert ([x] + rest)[1..] == rest;
  }

  lemma {:induction false} NoneStuck(listing: seq<string>)
    ensures Stuck(listing, {}) == []
  {
    if listing != [] {
      NoneStuck(listing[1..]);
    }
  }

  /** With nothing stuck, what is left after k files are the files from the k-th on. */
  lemma LeftIsRest(listing: seq<string>, k: nat)
    requires k <= |listing|
    ensures LeftAfter(listing, k, {}) == listing[k..]
  {
    NoneStuck(listing[..k]);
  }

  lemma FewerWeighLess(files: map<string, string>, listing: seq<string>, j: nat, k: nat)
    requires j <= k <= |listing| && OverCaps(files, listing[k..])
    ensures OverCaps(files, listing[j..])
  {
    assert listing[j..] == listing[j..k] + listing[k..];
    TotalOfConcat(files, listing[j..k], listing[k..]);
    hide TotalSize;
  }

  /**
   When removals succeed, a listed capture is dropped if and only if the listed files from it on are
   by themselves over the caps.
   */
  lemma CaptureIsDroppedExactly(files: map<string, string>, listing: seq<string>, k: nat, p: nat)
    requires IsSpool(files, listing) && StopsAt(files, listing, {}, k) && p < |listing|
    ensures listing[p] !in files - GoneAfter(listing, k, {}) <==> OverCaps(files, listing[p..])
  {
    assert listing[p] in files;
    LeftIsRest(listing, p);
    LeftIsRest(listing, k);
    hide OverCaps, LeftAfter;
    if p < k {
      assert listing[..k][p] == listing[p];
    } else {
      if OverCaps(files, listing[p..]) {
        FewerWeighLess(files, listing, k, p);
      }
      assert listing[p] !in listing[..k];
    }
  }

  /** The newest listed capture is dropped if and only if it is larger than the size cap by itself. */
  lemma NewestIsDroppedExactly(files: map<string, string>, listing: seq<string>, k: nat)
    requires IsSpool(files, listing) && listing != [] && StopsAt(files, listing, {}, k)
    ensures var newest := listing[|listing| - 1];
      newest !in files - GoneAfter(listing, k, {}) <==> |files[newest]| > MAX_BYTES
  {
    var last := |listing| - 1;
    CaptureIsDroppedExactly(files, listing, k, last);
    assert listing[last..] == [listing[last]] && [listing[last]][1..] == [];
    assert TotalSize(files, [listing[last]]) == |files[listing[last]]| + TotalSize(files, []);
  }

  /** The file names of captures that one process keeps, one a millisecond. */
  function Kept(n: nat): seq<string> {
    seq(n, i requires 0 <= i < n => SpoolText(StampText(i, 1, 1, "00000000")))
  }

  lemma KeptAreDistinct(n: nat)
    requires n <= 100
    ensures forall i, j :: 0 <= i < j < n ==> Less(Kept(n)[i], Kept(n)[j]) && Kept(n)[i] != Kept(n)[j]
  {
    assert Power(15) > 100 by { PowerOfFifteen(); }
    hide StampText, SpoolText, Less, Power;
    forall i, j | 0 <= i < j < n ensures Less(Kept(n)[i], Kept(n)[j]) && Kept(n)[i] != Kept(n)[j] {
      OlderSortsFirst(i, j, 1, 1, 1, 1, "00000000", "00000000");
      LessIsIrreflexive(Kept(n)[i]);
    }
  }

  lemma PowerOfFifteen()
    ensures Power(15) > 100
  {
    assert Power(3) == 1000;
    PowersGrow(3, 15);
  }

  lemma {:induction false} PowersGrow(a: nat, b: nat)
    requires a <= b
    ensures Power(a) <= Power(b)
  {
    if a < b {
      PowersGrow(a, b - 1);
    }
  }

  /**
   A capture of one character whose stamp is older than those of twenty others, as when the clock
   was set back, is dropped by the caps that run right after it was kept.
   */
  lemma SmallCaptureCanBeDropped() returns (files: map<string, string>, listing: seq<string>)
    ensures IsSpool(files, listing) && forall f :: f in files ==> |files[f]| == 1
    ensures forall i, j :: 0 <= i < j < |listing| ==> Less(listing[i], listing[j])
    ensures forall k :: StopsAt(files, listing, {}, k) ==> listing != [] && listing[0] !in files - GoneAfter(listing, k, {})
  {
    listing := Kept(21);
    KeptAreDistinct(21);
    files := map f | f in listing :: "x";
    hide Kept, Less, TotalSize;
    forall k | StopsAt(files, listing, {}, k) ensures listing[0] !in files - GoneAfter(listing, k, {}) {
      CaptureIsDroppedExactly(files, listing, k, 0);
      assert listing[0..] == listing;
    }
  }

  // ── Recovery on names ─────────────────────────────────────────────────────

  /** The directory of texts is the directory of names. */
  ghost predicate Shows(files: map<string, string>, dir: map<Name, string>) {
    && (forall n :: n in dir ==> IsProper(n))
    && (forall n :: n in dir ==> Text(n) in files && files[Text(n)] == dir[n])
    && (forall text :: text in files ==> exists n :: n in dir && Text(n) == text)
  }

  /** Where recovery leaves the file with this name. */
  function Home(n: Name, now: nat): Name {
    if n.Claim? && now - n.at >= CLAIM_STALE_MS then Spool(n.stamp) else n
  }

  function PutBack(dir: map<Name, string>, n: Name, now: nat): map<Name, string> {
    if Home(n, now) == n then dir else Renamed(dir, n, Home(n, now))
  }

  /** One step of recovery in the protocol does to the directory what the pass does with one name. */
  lemma ProtocolPutsBack(s: System, w: nat)
    requires w in s.workers && s.workers[w].Recovering? && s.workers[w].names != []
    ensures Recovered(s, w).dir == PutBack(s.dir, s.workers[w].names[0], s.workers[w].now)
  {
  }

  function AllPutBack(dir: map<Name, string>, names: seq<Name>, now: nat): map<Name, string>
    decreases |names|
  {
    if names == [] then dir else AllPutBack(PutBack(dir, names[0], now), names[1..], now)
  }

  function TextsOf(names: seq<Name>): seq<string> {
    if names == [] then [] else [Text(names[0])] + TextsOf(names[1..])
  }

  lemma TextIsThere(files: map<string, string>, dir: map<Name, string>, n: Name)
    requires Shows(files, dir) && IsProper(n)
    ensures Text(n) in files <==> n in dir
    ensures n in dir ==> files[Text(n)] == dir[n]
  {
    if Text(n) in files {
      var m :| m in dir && Text(m) == Text(n);
      hide Text, IsProper;
      TextsDiffer(n, m);
    }
  }

  lemma RenamingShows(files: map<string, string>, dir: map<Name, string>, from: Name, to: Name)
    requires Shows(files, dir) && IsProper(from) && IsProper(to) && from != to
    ensures Shows(RenamedText(files, Text(from), Text(to)), Renamed(dir, from, to))
  {
    var files', dir' := RenamedText(files, Text(from), Text(to)), Renamed(dir, from, to);
    hide Text, IsProper;
    TextIsThere(files, dir, from);
    if from in dir {
      forall n | n in dir' ensures IsProper(n) && Text(n) in files' && files'[Text(n)] == dir'[n] {
        if n != to {
          assert IsProper(n);
          if Text(n) == Text(from) { TextsDiffer(n, from); }
          if Text(n) == Text(to) { TextsDiffer(n, to); }
        }
      }
      forall text | text in files' ensures exists n :: n in dir' && Text(n) == text {
        if text == Text(to) {
          assert to in dir';
        } else {
          var n :| n in dir && Text(n) == text;
          assert n in dir';
        }
      }
    }
  }

  /** One step of recovery on texts is the step on names. */
  lemma OneStepShows(files: map<string, string>, dir: map<Name, string>, n: Name, now: nat, other: string -> Option<real>)
    requires Shows(files, dir) && IsProper(n)
    ensures Shows(RestoredOne(files, Text(n), now, other), PutBack(dir, n, now))
  {
    if n.Claim? {
      ClaimReadsBack(n, other);
      hide Shows, Text;
      if Home(n, now) != n {
        RenamingShows(files, dir, n, Spool(n.stamp));
      }
    } else {
      OthersAreNoClaims(n, other);
    }
  }

  lemma {:induction false} RecoveryShows(files: map<string, string>, dir: map<Name, string>, names: seq<Name>, now: nat, other: string -> Option<real>)
    requires Shows(files, dir) && forall n :: n in names ==> IsProper(n)
    ensures Shows(Restored(files, TextsOf(names), now, other), AllPutBack(dir, names, now))
    decreases |names|
  {
    hide Shows, PutBack, RestoredOne, Text, IsProper;
    if names != [] {
      OneStepShows(files, dir, names[0], now, other);
      RecoveryShows(RestoredOne(files, Text(names[0]), now, other), PutBack(dir, names[0], now), names[1..], now, other);
      assert TextsOf(names)[1..] == TextsOf(names[1..]);
    }
  }

  /** No capture has two files. */
  ghost predicate OneFileEach(dir: map<Name, string>) {
    forall n, m :: n in dir && m in dir && !n.Temp? && !m.Temp? && n.stamp == m.stamp ==> n == m
  }

  /** Every file is at its home with its contents if it was listed, and otherwise where it was; and there is no other. */
  ghost predicate AllHome(dir: map<Name, string>, names: seq<Name>, now: nat, dir': map<Name, string>) {
    && (forall n :: n in dir && n in names ==> Home(n, now) in dir' && dir'[Home(n, now)] == dir[n])
    && (forall n :: n in dir && n !in names ==> n in dir' && dir'[n] == dir[n])
    && (forall m :: m in dir' ==> (m in dir && (m in names ==> Home(m, now) == m)) || exists n :: n in dir && n in names && Home(n, now) == m)
  }

  lemma {:induction false} RecoveryBringsHome(dir: map<Name, string>, names: seq<Name>, now: nat)
    requires OneFileEach(dir)
    ensures AllHome(dir, names, now, AllPutBack(dir, names, now)) && OneFileEach(AllPutBack(dir, names, now))
    decreases |names|
  {
    if names != [] {
      var n, rest := names[0], names[1..];
      var dir1 := PutBack(dir, n, now);
      assert OneFileEach(dir1);
      RecoveryBringsHome(dir1, rest, now);
      var dir' := AllPutBack(dir1, rest, now);
      hide AllPutBack;
      OneMoreHome(dir, n, rest, now, dir');
      assert [n] + rest == names;
    }
  }

  lemma OneMoreHome(dir: map<Name, string>, n: Name, rest: seq<Name>, now: nat, dir': map<Name, string>)
    requires OneFileEach(dir) && AllHome(PutBack(dir, n, now), rest, now, dir')
    ensures AllHome(dir, [n] + rest, now, dir')
  {
    var dir1 := PutBack(dir, n, now);
    forall m | m in dir && m in [n] + rest ensures Home(m, now) in dir' && dir'[Home(m, now)] == dir[m] {
      assert m == n ==> Home(n, now) in dir1 && dir1[Home(n, now)] == dir[n];
      assert m != n ==> m in dir1 && dir1[m] == dir[m] && m in rest;
    }
    forall m | m in dir && m !in [n] + rest ensures m in dir' && dir'[m] == dir[m] {
      assert m in dir1 && m !in rest;
    }
    forall m | m in dir'
      ensures (m in dir && (m in [n] + rest ==> Home(m, now) == m)) || exists k :: k in dir && k in [n] + rest && Home(k, now) == m
    {
    }
  }
}
