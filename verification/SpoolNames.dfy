/**
 The texts of the names in the retry spool (integrations/agent-hooks-core/core.js): what spooling and
 claiming write, and what listing and recovery read out of a directory.
 */
module SpoolNames {
  import opened Options
  import opened Decimals
  import opened JsText
  import opened Splitting
  import opened CaptureSpool

  const CLAIM_MARK := ".inflight-"
  const SUFFIX := ".json"

  // ── What is written ───────────────────────────────────────────────────────

  predicate IsHex(s: string) {
    forall i :: 0 <= i < |s| ==> '0' <= s[i] <= '9' || 'a' <= s[i] <= 'f'
  }

  predicate IsRand(s: string) {
    |s| == 8 && IsHex(s)
  }

  function StampText(time: nat, pid: nat, number: nat, rand: string): string {
    PadStart(Decimal(time), 15) + "-" + PadStart(Decimal(pid), 7) + "-" + PadStart(Decimal(number), 6) + "-" + rand
  }

  ghost predicate IsStamp(s: string) {
    exists time: nat, pid: nat, number: nat, rand: string :: IsRand(rand) && s == StampText(time, pid, number, rand)
  }

  function SpoolText(stamp: string): string {
    stamp + SUFFIX
  }

  function ClaimTail(pid: nat, at: nat, rand: string): string {
    Decimal(pid) + "-" + Decimal(at) + "-" + rand
  }

  function Text(n: Name): string {
    match n
    case Temp(stamp) => ".tmp-" + stamp
    case Spool(stamp) => SpoolText(stamp)
    case Claim(stamp, pid, at, rand) => SpoolText(stamp) + CLAIM_MARK + ClaimTail(pid, at, rand)
  }

  /** The names that spooling and claiming make. */
  ghost predicate IsProper(n: Name) {
    IsStamp(n.stamp) && (n.Claim? ==> IsRand(n.rand))
  }

  // ── What is read ──────────────────────────────────────────────────────────

  predicate StartsWith(s: string, prefix: string) {
    |prefix| <= |s| && s[..|prefix|] == prefix
  }

  predicate EndsWith(s: string, suffix: string) {
    |suffix| <= |s| && s[|s| - |suffix|..] == suffix
  }

  predicate IsSpoolFile(text: string) {
    EndsWith(text, SUFFIX) && !StartsWith(text, ".")
  }

  /** The place where a mark first occurs. */
  function IndexOf(s: string, mark: string): (at: Option<nat>)
    ensures at.Some? ==> at.value + |mark| <= |s|
  {
    if StartsWith(s, mark) then Some(0)
    else if s == "" then None
    else
      var rest := IndexOf(s[1..], mark);
      if rest.None? then None else Some(rest.value + 1)
  }

  /** A text as a number; `other` says what texts that are not plain digits mean, and None is not finite. */
  function Number(text: string, other: string -> Option<real>): Option<real> {
    if text != "" && AllDigits(text) then Some(Value(text) as real) else other(text)
  }

  datatype ClaimRead = ClaimRead(name: string, at: real)

  /** The name that a claim came from and the time it was made. */
  function ReadClaim(text: string, other: string -> Option<real>): Option<ClaimRead> {
    var at := IndexOf(text, CLAIM_MARK);
    if at.None? then None
    else
      var pieces := Split(text[at.value + |CLAIM_MARK|..], '-');
      if |pieces| < 2 then None
      else
        var time := Number(pieces[1], other);
        if time.None? then None else Some(ClaimRead(text[..at.value], time.value))
  }

  // ── What is written is read back ──────────────────────────────────────────

  lemma {:induction false} FirstIndex(a: string, mark: string, b: string)
    requires forall k :: 0 <= k < |a| ==> !StartsWith((a + mark + b)[k..], mark)
    ensures IndexOf(a + mark + b, mark) == Some(|a|)
  {
    var s := a + mark + b;
    if a == "" {
      assert s[..|mark|] == mark;
    } else {
      assert s[0..] == s;
      assert s[1..] == a[1..] + mark + b;
      forall k | 0 <= k < |a[1..]| ensures !StartsWith((a[1..] + mark + b)[k..], mark) {
        assert (a[1..] + mark + b)[k..] == s[k + 1..];
      }
      FirstIndex(a[1..], mark, b);
    }
  }

  lemma {:induction false} NoIndex(s: string, mark: string)
    requires forall k :: 0 <= k <= |s| ==> !StartsWith(s[k..], mark)
    ensures IndexOf(s, mark) == None
  {
    assert s[0..] == s;
    if s != "" {
      forall k | 0 <= k <= |s[1..]| ensures !StartsWith(s[1..][k..], mark) {
        assert s[1..][k..] == s[k + 1..];
      }
      NoIndex(s[1..], mark);
    }
  }

  /** Digits, letters of hexadecimal numbers and dashes only, a digit first. */
  predicate IsPlain(stamp: string) {
    && stamp != "" && '0' <= stamp[0] <= '9'
    && forall i :: 0 <= i < |stamp| ==> stamp[i] == '-' || '0' <= stamp[i] <= '9' || 'a' <= stamp[i] <= 'f'
  }

  lemma PaddedDecimal(n: nat, width: nat)
    ensures AllDigits(PadStart(Decimal(n), width)) && PadStart(Decimal(n), width) != ""
  {
    ValueOfDecimal(n);
    Padded(Decimal(n), width);
  }

  lemma StampIsPlain(stamp: string)
    requires IsStamp(stamp)
    ensures IsPlain(stamp)
  {
    var time: nat, pid: nat, number: nat, rand: string :| IsRand(rand) && stamp == StampText(time, pid, number, rand);
    PaddedDecimal(time, 15);
    PaddedDecimal(pid, 7);
    PaddedDecimal(number, 6);
    hide PadStart, Decimal;
  }

  /** The mark is found right behind the spool name. */
  lemma MarkFollowsName(stamp: string, tail: string)
    requires IsPlain(stamp)
    ensures IndexOf(SpoolText(stamp) + CLAIM_MARK + tail, CLAIM_MARK) == Some(|SpoolText(stamp)|)
  {
    var a := SpoolText(stamp);
    var s := a + CLAIM_MARK + tail;
    forall k | 0 <= k < |a| ensures !StartsWith(s[k..], CLAIM_MARK) {
      if k == |stamp| {
        assert s[k..][1] == 'j';
      } else {
        assert s[k..][0] == a[k] && a[k] != '.';
      }
    }
    FirstIndex(a, CLAIM_MARK, tail);
  }

  lemma ThreePieces(a: string, b: string, c: string)
    requires '-' !in a && '-' !in b
    ensures Split(a + "-" + b + "-" + c, '-') == [a, b] + Split(c, '-')
  {
    var rest := b + "-" + c;
    assert a + "-" + rest == a + "-" + b + "-" + c;
    SplitAtSeparator(a, '-', rest);
    SplitAtSeparator(b, '-', c);
    SplitWithoutSeparator(a, '-');
    SplitWithoutSeparator(b, '-');
    hide Split;
    assert [a] + ([b] + Split(c, '-')) == [a, b] + Split(c, '-');
  }

  lemma TailSplits(pid: nat, at: nat, rand: string)
    ensures Split(ClaimTail(pid, at, rand), '-') == [Decimal(pid), Decimal(at)] + Split(rand, '-')
  {
    ValueOfDecimal(pid);
    ValueOfDecimal(at);
    hide Decimal, Split;
    ThreePieces(Decimal(pid), Decimal(at), rand);
  }

  /** Recovery reads out of a claim's text exactly the name the claim was made from, and the time it was made. */
  lemma ClaimReadsBack(n: Name, other: string -> Option<real>)
    requires n.Claim? && IsProper(n)
    ensures ReadClaim(Text(n), other) == Some(ClaimRead(Text(Spool(n.stamp)), n.at as real))
  {
    StampIsPlain(n.stamp);
    var tail := ClaimTail(n.pid, n.at, n.rand);
    MarkFollowsName(n.stamp, tail);
    var a := SpoolText(n.stamp);
    assert Text(n)[|a| + |CLAIM_MARK|..] == tail && Text(n)[..|a|] == a;
    TailSplits(n.pid, n.at, n.rand);
    ValueOfDecimal(n.at);
  }

  /** Nothing else in the directory reads as a claim. */
  lemma OthersAreNoClaims(n: Name, other: string -> Option<real>)
    requires !n.Claim? && IsProper(n)
    ensures ReadClaim(Text(n), other) == None
  {
    StampIsPlain(n.stamp);
    var s := Text(n);
    forall k | 0 <= k <= |s| ensures !StartsWith(s[k..], CLAIM_MARK) {
      assert k < |s| ==> s[k..][0] == s[k];
      assert k + 1 < |s| ==> s[k..][1] == s[k + 1];
      assert k + 1 < |s| && s[k] == '.' ==> s[k + 1] == if n.Spool? then 'j' else 't';
      assert |s[k..]| >= |CLAIM_MARK| ==> s[k..][..|CLAIM_MARK|][0] == s[k] && s[k..][..|CLAIM_MARK|][1] == s[k + 1];
    }
    NoIndex(s, CLAIM_MARK);
  }

  /** Listing the spool finds the kept captures and passes over unfinished and claimed ones. */
  lemma ListingFindsKept(n: Name)
    requires IsProper(n)
    ensures IsSpoolFile(Text(n)) <==> n.Spool?
  {
    StampIsPlain(n.stamp);
    var s := Text(n);
    assert |s| >= |SUFFIX| ==> s[|s| - |SUFFIX|..][4] == s[|s| - 1];
    if n.Claim? {
      assert s[|s| - 1] == n.rand[|n.rand| - 1];
    } else if n.Spool? {
      assert s[|s| - |SUFFIX|..] == SUFFIX;
      assert s[..1][0] == n.stamp[0];
    } else {
      assert s[..1] == ".";
    }
  }

  lemma SameTail(n: Name, m: Name)
    requires n.Claim? && m.Claim? && IsRand(n.rand) && IsRand(m.rand)
    requires ClaimTail(n.pid, n.at, n.rand) == ClaimTail(m.pid, m.at, m.rand)
    ensures n.pid == m.pid && n.at == m.at && n.rand == m.rand
  {
    TailSplits(n.pid, n.at, n.rand);
    TailSplits(m.pid, m.at, m.rand);
    SplitWithoutSeparator(n.rand, '-');
    SplitWithoutSeparator(m.rand, '-');
    hide Split, ClaimTail;
    SamePieces([Decimal(n.pid), Decimal(n.at)] + [n.rand], [Decimal(m.pid), Decimal(m.at)] + [m.rand]);
    ValueOfDecimal(n.pid);
    ValueOfDecimal(m.pid);
    ValueOfDecimal(n.at);
    ValueOfDecimal(m.at);
  }

  lemma SamePieces(a: seq<string>, b: seq<string>)
    requires a == b && |a| == 3
    ensures a[0] == b[0] && a[1] == b[1] && a[2] == b[2]
  {
  }

  lemma SameClaim(n: Name, m: Name)
    requires n.Claim? && m.Claim? && IsProper(n) && IsProper(m) && Text(n) == Text(m)
    ensures n == m
  {
    ClaimReadsBack(n, _ => None);
    ClaimReadsBack(m, _ => None);
    assert SpoolText(n.stamp)[..|n.stamp|] == n.stamp && SpoolText(m.stamp)[..|m.stamp|] == m.stamp;
    var k := |SpoolText(n.stamp)| + |CLAIM_MARK|;
    assert Text(n)[k..] == ClaimTail(n.pid, n.at, n.rand) && Text(m)[k..] == ClaimTail(m.pid, m.at, m.rand);
    SameTail(n, m);
  }

  /** Two names have one text only if they are one name. */
  lemma TextsDiffer(n: Name, m: Name)
    requires IsProper(n) && IsProper(m) && Text(n) == Text(m)
    ensures n == m
  {
    ListingFindsKept(n);
    ListingFindsKept(m);
    if n.Claim? || m.Claim? {
      if n.Claim? { ClaimReadsBack(n, _ => None); } else { OthersAreNoClaims(n, _ => None); }
      if m.Claim? { ClaimReadsBack(m, _ => None); } else { OthersAreNoClaims(m, _ => None); }
      SameClaim(n, m);
    } else {
      assert n.Temp? ==> Text(n)[5..] == n.stamp;
      assert m.Temp? ==> Text(m)[5..] == m.stamp;
      assert n.Spool? ==> Text(n)[..|Text(n)| - 5] == n.stamp;
      assert m.Spool? ==> Text(m)[..|Text(m)| - 5] == m.stamp;
    }
  }

  // ── Names sort by age ─────────────────────────────────────────────────────

  lemma {:induction false} SmallerSortsFirst(a: string, b: string, u: string, v: string)
    requires AllDigits(a) && AllDigits(b) && |a| == |b| && Value(a) < Value(b)
    ensures Less(a + u, b + v)
  {
    var k := FirstDifference(a, b);
    LessAtDifference(a + u, b + v, k);
  }

  /** Numbers of one width differ first in a digit that is smaller in the smaller number. */
  lemma {:induction false} FirstDifference(a: string, b: string) returns (k: nat)
    requires AllDigits(a) && AllDigits(b) && |a| == |b| && Value(a) < Value(b)
    ensures k < |a| && a[..k] == b[..k] && a[k] < b[k]
  {
    var p, q := a[..|a| - 1], b[..|b| - 1];
    if Value(p) < Value(q) {
      k := FirstDifference(p, q);
      assert a[..k] == p[..k] && b[..k] == q[..k];
    } else {
      assert Value(p) == Value(q);
      SameValue(p, q);
      k := |a| - 1;
    }
  }

  lemma {:induction false} SameValue(a: string, b: string)
    requires AllDigits(a) && AllDigits(b) && |a| == |b| && Value(a) == Value(b)
    ensures a == b
  {
    if a != "" {
      SameValue(a[..|a| - 1], b[..|b| - 1]);
      assert a == a[..|a| - 1] + [a[|a| - 1]] && b == b[..|b| - 1] + [b[|b| - 1]];
    }
  }

  lemma {:induction false} LessAtDifference(a: string, b: string, k: nat)
    requires k < |a| && k < |b| && a[..k] == b[..k]
    ensures a[k] < b[k] ==> Less(a, b)
    ensures b[k] < a[k] ==> !Less(a, b)
  {
    if k > 0 {
      assert a[..k][0] == b[..k][0];
      assert a[1..][..k - 1] == a[..k][1..] && b[1..][..k - 1] == b[..k][1..];
      LessAtDifference(a[1..], b[1..], k - 1);
    }
  }

  /** An earlier capture has the smaller file name, until the clock needs more than fifteen digits. */
  lemma OlderSortsFirst(t: nat, u: nat, p: nat, q: nat, i: nat, j: nat, x: string, y: string)
    requires t < u < Power(15)
    ensures Less(SpoolText(StampText(t, p, i, x)), SpoolText(StampText(u, q, j, y)))
  {
    var a, b := PadStart(Decimal(t), 15), PadStart(Decimal(u), 15);
    ValueOfDecimal(t);
    ValueOfDecimal(u);
    DecimalIsShort(t, 15);
    DecimalIsShort(u, 15);
    Padded(Decimal(t), 15);
    Padded(Decimal(u), 15);
    hide PadStart, Decimal, Value, Less, Power;
    var r := Behind(PadStart(Decimal(p), 7), PadStart(Decimal(i), 6), x, a);
    var s := Behind(PadStart(Decimal(q), 7), PadStart(Decimal(j), 6), y, b);
    SmallerSortsFirst(a, b, r, s);
  }

  /** What follows the time in a spool file's name. */
  lemma Behind(pid: string, number: string, rand: string, time: string) returns (rest: string)
    ensures SpoolText(time + "-" + pid + "-" + number + "-" + rand) == time + rest
  {
    rest := "-" + pid + "-" + number + "-" + rand + SUFFIX;
  }

  lemma NoDash(s: string)
    requires '-' !in s
    ensures multiset(s)['-'] == 0
  {
  }

  /** A stamp has three dashes, the last before its last eight characters. */
  lemma StampShape(s: string)
    requires IsStamp(s)
    ensures |s| >= 9 && s[|s| - 9] == '-' && '-' !in s[|s| - 8..] && multiset(s)['-'] == 3
  {
    var time: nat, pid: nat, number: nat, rand: string :| IsRand(rand) && s == StampText(time, pid, number, rand);
    PaddedDecimal(time, 15);
    PaddedDecimal(pid, 7);
    PaddedDecimal(number, 6);
    var a, b, c := PadStart(Decimal(time), 15), PadStart(Decimal(pid), 7), PadStart(Decimal(number), 6);
    hide PadStart, Decimal;
    assert '-' !in rand && '-' !in a && '-' !in b && '-' !in c;
    Dashes(a, b, c, rand);
    assert s[|s| - 8..] == rand;
  }

  lemma Dashes(a: string, b: string, c: string, d: string)
    requires '-' !in a && '-' !in b && '-' !in c && '-' !in d
    ensures multiset(a + "-" + b + "-" + c + "-" + d)['-'] == 3
  {
    NoDash(a);
    NoDash(b);
    NoDash(c);
    NoDash(d);
    assert multiset(a + "-" + b + "-" + c + "-" + d) ==
           multiset(a) + multiset("-") + multiset(b) + multiset("-") + multiset(c) + multiset("-") + multiset(d);
    assert multiset("-")['-'] == 1;
  }

  lemma NoDashAdded(a: string, x: string)
    requires multiset(a + x)['-'] == multiset(a)['-']
    ensures '-' !in x
  {
    assert multiset(a + x) == multiset(a) + multiset(x);
  }

  lemma NoTail(a: string, x: string)
    requires |a| >= 9 && '-' !in a[|a| - 8..] && '-' !in x && (a + x)[|a + x| - 9] == '-'
    ensures x == ""
  {
    assert (a + x)[|a| - 8..] == a[|a| - 8..] + x;
    DashIsBefore(a + x, |a| - 8, |a + x| - 9);
  }

  lemma NoStampIsPrefix(a: string, b: string)
    requires IsStamp(a) && IsStamp(b) && a <= b
    ensures a == b
  {
    StampShape(a);
    StampShape(b);
    hide IsStamp;
    var x := b[|a|..];
    assert b == a + x;
    NoDashAdded(a, x);
    NoTail(a, x);
  }

  lemma DashIsBefore(s: string, p: nat, k: nat)
    requires p <= |s| && '-' !in s[p..] && k < |s| && s[k] == '-'
    ensures k < p
  {
    assert s == s[..p] + s[p..];
  }

  lemma {:induction false} FirstClash(a: string, b: string) returns (k: nat)
    requires !(a <= b) && !(b <= a)
    ensures k < |a| && k < |b| && a[..k] == b[..k] && a[k] != b[k]
  {
    if a[0] != b[0] {
      k := 0;
    } else {
      assert a == [a[0]] + a[1..] && b == [b[0]] + b[1..];
      k := FirstClash(a[1..], b[1..]);
      k := k + 1;
    }
  }

  /** Sorting the files' names sorts their stamps. */
  lemma NamesSortAsStamps(a: string, b: string)
    requires IsStamp(a) && IsStamp(b)
    ensures Less(SpoolText(a), SpoolText(b)) <==> Less(a, b)
  {
    if a == b {
      LessIsIrreflexive(a);
      LessIsIrreflexive(SpoolText(a));
    } else {
      if a <= b { NoStampIsPrefix(a, b); }
      if b <= a { NoStampIsPrefix(b, a); }
      var k := FirstClash(a, b);
      LessAtDifference(a, b, k);
      assert SpoolText(a)[..k] == a[..k] && SpoolText(b)[..k] == b[..k];
      LessAtDifference(SpoolText(a), SpoolText(b), k);
    }
  }
}
