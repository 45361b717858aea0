/**
 Where the scan of public/utils.js, packGraphCircles, looks for a place: on even grids around the
 middle, ring by ring; and so how far out a circle can come to lie.
 */
module CircleGrid {
  import opened CirclePacking
  import opened RealGeometry

  /** Cosine and sine by their squares and their addition laws. */
  ghost predicate IsRotation(cos: real -> real, sin: real -> real) {
    IsTurn(cos, sin) && forall a, b :: AddsUp(cos, sin, a, b)
  }

  ghost predicate AddsUp(cos: real -> real, sin: real -> real, a: real, b: real) {
    && cos(a + b) == cos(a) * cos(b) - sin(a) * sin(b)
    && sin(a + b) == sin(a) * cos(b) + cos(a) * sin(b)
  }

  /** The point turned around the middle by the angle of which c and s are the cosine and the sine. */
  function Turned(p: Point, c: real, s: real): Point {
    Point(p.x * c - p.y * s, p.y * c + p.x * s)
  }

  /** Turned so many times. */
  function TurnedTimes(p: Point, c: real, s: real, times: nat): Point {
    if times == 0 then p else Turned(TurnedTimes(p, c, s, times - 1), c, s)
  }

  ghost predicate IsAtDistance(p: Point, d: real) {
    p.x * p.x + p.y * p.y == d * d
  }

  ghost predicate IsWithin(p: Point, d: real) {
    p.x * p.x + p.y * p.y <= d * d
  }

  lemma CloserIsWithin(p: Point, a: real, b: real)
    requires IsAtDistance(p, a) && 0.0 <= a <= b
    ensures IsWithin(p, b)
  {
    SquareOrder(a, b);
  }

  /** The points of one ring: `start` turned again and again by the same n-th part of a turn. */
  ghost predicate IsEvenGrid(scan: Scan, rad: real, n: int, step: real) {
    && n >= 8 && n as real * step == 2.0 * PI
    && IsAtDistance(scan.At(rad, 0), rad)
    && forall k: nat :: scan.At(rad, k) == TurnedTimes(scan.At(rad, 0), scan.cos(step), scan.sin(step), k)
  }

  // ── The samples of a ring are an even grid ────────────────────────────────

  lemma ScaledTurn(ca: real, sa: real, cb: real, sb: real, rad: real)
    ensures Turned(Point(ca * rad, sa * rad), cb, sb) == Point((ca * cb - sa * sb) * rad, (sa * cb + ca * sb) * rad)
  {
    assert (ca * rad) * cb == (ca * cb) * rad && (sa * rad) * sb == (sa * sb) * rad;
    assert (sa * rad) * cb == (sa * cb) * rad && (ca * rad) * sb == (ca * sb) * rad;
    assert (ca * cb - sa * sb) * rad == (ca * cb) * rad - (sa * sb) * rad;
    assert (sa * cb + ca * sb) * rad == (sa * cb) * rad + (ca * sb) * rad;
  }

  function PointAt(cos: real -> real, sin: real -> real, a: real, rad: real): Point {
    Point(cos(a) * rad, sin(a) * rad)
  }

  lemma PointTurns(cos: real -> real, sin: real -> real, a: real, b: real, rad: real)
    requires IsRotation(cos, sin)
    ensures Turned(PointAt(cos, sin, a, rad), cos(b), sin(b)) == PointAt(cos, sin, a + b, rad)
  {
    assert AddsUp(cos, sin, a, b);
    ScaledTurn(cos(a), sin(a), cos(b), sin(b), rad);
  }

  function Angle(rad: real, n: int, k: nat): real
    requires n > 0
  {
    k as real / n as real * 2.0 * PI + rad * 0.618
  }

  lemma NextShare(k: nat, m: real) returns (one: real)
    requires m > 0.0
    ensures one * m == 1.0 && (k + 1) as real / m == k as real / m + one
  {
    one := 1.0 / m;
    var x, y := k as real / m, (k + 1) as real / m;
    assert x * m == k as real && y * m == (k + 1) as real;
    assert (y - x - one) * m == 0.0;
  }

  /** The n-th part of a full turn. */
  function Share(n: int): real
    requires n > 0
  {
    2.0 * PI / n as real
  }

  lemma SharesMakeATurn(n: int)
    requires n > 0
    ensures n as real * Share(n) == 2.0 * PI
  {
  }

  lemma NextAngle(rad: real, n: int, k: nat)
    requires n > 0
    ensures Angle(rad, n, k + 1) == Angle(rad, n, k) + Share(n)
  {
    var one := NextShare(k, n as real);
    assert Share(n) == one * (2.0 * PI);
    var x := k as real / n as real;
    assert (x + one) * 2.0 * PI == x * 2.0 * PI + one * (2.0 * PI);
  }

  lemma SampleAngle(scan: Scan, rad: real, k: nat)
    ensures scan.At(rad, k) == PointAt(scan.cos, scan.sin, Angle(rad, scan.Samples(rad), k), rad)
  {
  }

  lemma NextSample(scan: Scan, rad: real, k: nat)
    requires IsRotation(scan.cos, scan.sin)
    ensures var step := Share(scan.Samples(rad));
            scan.At(rad, k + 1) == Turned(scan.At(rad, k), scan.cos(step), scan.sin(step))
  {
    var n := scan.Samples(rad);
    assert n > 0;
    hide *;
    NextAngle(rad, n, k);
    SampleAngle(scan, rad, k);
    SampleAngle(scan, rad, k + 1);
    PointTurns(scan.cos, scan.sin, Angle(rad, n, k), Share(n), rad);
  }

  lemma {:induction false} SampleIsTurned(scan: Scan, rad: real, k: nat, step: real)
    requires IsRotation(scan.cos, scan.sin) && step == Share(scan.Samples(rad))
    ensures scan.At(rad, k) == TurnedTimes(scan.At(rad, 0), scan.cos(step), scan.sin(step), k)
  {
    hide IsRotation, Turned, Share;
    if k > 0 {
      SampleIsTurned(scan, rad, k - 1, step);
      NextSample(scan, rad, k - 1);
    }
  }

  lemma SampleIsOnRing(scan: Scan, rad: real, k: int)
    requires IsTurn(scan.cos, scan.sin)
    ensures IsAtDistance(scan.At(rad, k), rad)
  {
    var ang := k as real / scan.Samples(rad) as real * 2.0 * PI + rad * 0.618;
    OnCircle(scan.cos(ang), scan.sin(ang), rad);
  }

  /** The samples of every ring are an even grid around the middle. */
  lemma SamplesAreEvenGrid(scan: Scan, rad: real) returns (step: real)
    requires IsRotation(scan.cos, scan.sin)
    ensures IsEvenGrid(scan, rad, scan.Samples(rad), step)
  {
    step := Share(scan.Samples(rad));
    SharesMakeATurn(scan.Samples(rad));
    SampleIsOnRing(scan, rad, 0);
    hide IsRotation, IsAtDistance, Turned, Share;
    forall k: nat ensures scan.At(rad, k) == TurnedTimes(scan.At(rad, 0), scan.cos(step), scan.sin(step), k) {
      SampleIsTurned(scan, rad, k, step);
    }
  }

  // ── How close the samples of a ring are ───────────────────────────────────

  lemma RoundIsNear(x: real)
    ensures -0.5 <= Round(x) as real - x <= 0.5
  {
  }

  /**
   Along the ring the samples are at most max(6, r) and a sixteenth of it apart; and if there are more
   than eight, no closer than that by the same rounding.
   */
  lemma SamplesAreClose(scan: Scan, rad: real)
    requires rad >= 0.0
    ensures var n, wide := scan.Samples(rad) as real, MaxReal(6.0, scan.r);
      && 2.0 * PI * rad <= n * (wide + wide / 16.0)
      && (n > 8.0 ==> wide * (n - 0.5) <= 2.0 * PI * rad)
  {
    AreClose(2.0 * PI * rad, MaxReal(6.0, scan.r), scan.Samples(rad));
  }

  lemma AreClose(turn: real, wide: real, n: int)
    requires turn >= 0.0 && wide > 0.0
    requires n == var x := Round(turn / wide); if x >= 8 then x else 8
    ensures turn <= n as real * (wide + wide / 16.0)
    ensures n > 8 ==> wide * (n as real - 0.5) <= turn
  {
    var x := turn / wide;
    assert x * wide == turn;
    RoundIsNear(x);
    WideEnough(x, n as real, wide);
    if n > 8 {
      hide Round;
      Times(n as real - 0.5, x, wide);
      Swapped(n as real - 0.5, wide);
    }
  }

  lemma Swapped(x: real, y: real)
    ensures x * y == y * x
  {
  }

  lemma WideEnough(x: real, n: real, wide: real)
    requires n >= 8.0 && x <= n + 0.5 && wide >= 0.0
    ensures x * wide <= n * (wide + wide / 16.0)
  {
    Times(x, n + n / 16.0, wide);
    assert (n + n / 16.0) * wide == n * (wide + wide / 16.0);
  }

  lemma Times(x: real, y: real, k: real)
    requires x <= y && k >= 0.0
    ensures x * k <= y * k
  {
    ProductNonNegative(y - x, k);
  }

  // ── The rings ─────────────────────────────────────────────────────────────

  /** The m-th radius, counting from 0, when rings are max(3, r / 2) apart and the first is as far from the middle. */
  function RingRadius(m: nat, r: real): real {
    (m + 1) as real * MaxReal(3.0, r / 2.0)
  }

  /** The rings are max(3, r / 2) apart, the first as far from the middle. */
  lemma {:induction false} RingsAreEven(scan: Scan, m: nat)
    ensures scan.Ring(m) == RingRadius(m, scan.r)
  {
    if m > 0 {
      RingsAreEven(scan, m - 1);
    }
  }

  // ── How far out a circle is placed ────────────────────────────────────────

  lemma RingIsPositive(scan: Scan, m: nat)
    ensures scan.Ring(m) >= 3.0
  {
    scan.RingsGrow(0, m);
  }

  lemma FreeIsNotBlocked(scan: Scan, j: nat, k: nat)
    requires k < scan.Samples(scan.Ring(j)) && scan.FreeAt(scan.Ring(j), k)
    ensures !scan.RingBlocked(j, scan.Samples(scan.Ring(j)))
  {
  }

  lemma FoundNoLater(scan: Scan, reach: real, m: nat, i: int, spot: Point, j: nat, k: nat)
    requires FirstFreeSample(scan, reach, m, i, spot)
    requires k < scan.Samples(scan.Ring(j)) && scan.FreeAt(scan.Ring(j), k)
    ensures m <= j
  {
    FreeIsNotBlocked(scan, j, k);
  }

  /** A spot that the scan found is a sample, on no ring behind one with a free sample. */
  lemma FoundSample(scan: Scan, reach: real, spot: Point, j: nat, k: nat) returns (m: nat, i: int)
    requires IsSpot(scan, reach, spot)
    requires scan.Ring(j) <= reach && k < scan.Samples(scan.Ring(j)) && scan.FreeAt(scan.Ring(j), k)
    ensures m <= j && spot == scan.At(scan.Ring(m), i)
  {
    FreeIsNotBlocked(scan, j, k);
    hide Scan.At, Scan.FreeAt, Scan.RingBlocked, Scan.Samples, Scan.Ring;
    assert !AllBlocked(scan, reach);
    m, i :| FirstFreeSample(scan, reach, m, i, spot);
    FoundNoLater(scan, reach, m, i, spot, j, k);
  }

  /** No free sample lies on a ring nearer to the middle than the spot. */
  lemma SpotIsNoFartherOut(scan: Scan, reach: real, spot: Point, j: nat, k: nat)
    requires IsTurn(scan.cos, scan.sin) && IsSpot(scan, reach, spot)
    requires scan.Ring(j) <= reach && k < scan.Samples(scan.Ring(j)) && scan.FreeAt(scan.Ring(j), k)
    ensures IsWithin(spot, scan.Ring(j))
  {
    hide *;
    var m, i := FoundSample(scan, reach, spot, j, k);
    SampleIsOnRing(scan, scan.Ring(m), i);
    scan.RingsGrow(m, j);
    RingIsPositive(scan, m);
    CloserIsWithin(spot, scan.Ring(m), scan.Ring(j));
  }

  lemma ExtentIsUnique(placed: seq<Disc>, hypot: (real, real) -> real, a: real, b: real)
    requires IsExtent(placed, hypot, a) && IsExtent(placed, hypot, b)
    ensures a == b
  {
  }

  /** The scan that places circle q among those before it. */
  function ScanOf(placed: seq<Disc>, q: nat, gap: real, cos: real -> real, sin: real -> real): Scan
    requires q < |placed|
  {
    Scan(placed[q].r, gap, placed[..q], cos, sin)
  }

  lemma PlacementIsSpot(scan: Scan, hypot: (real, real) -> real, spot: Point, maxd: real)
    requires IsPlacement(scan, hypot, spot) && IsExtent(scan.placed, hypot, maxd)
    ensures IsSpot(scan, maxd + scan.r + scan.gap, spot)
  {
    hide IsExtent, IsSpot;
    var d :| IsExtent(scan.placed, hypot, d) && IsSpot(scan, d + scan.r + scan.gap, spot);
    ExtentIsUnique(scan.placed, hypot, maxd, d);
  }

  lemma GreedyPlaces(placed: seq<Disc>, q: nat, gap: real, cos: real -> real, sin: real -> real, hypot: (real, real) -> real)
    requires GreedyFrom(placed, gap, cos, sin, hypot) && 0 < q < |placed|
    ensures IsPlacement(ScanOf(placed, q, gap, cos, sin), hypot, Point(placed[q].x, placed[q].y))
  {
    hide IsPlacement;
  }

  lemma PlacedAtSpot(placed: seq<Disc>, q: nat, gap: real, cos: real -> real, sin: real -> real, hypot: (real, real) -> real, maxd: real)
    requires GreedyFrom(placed, gap, cos, sin, hypot) && 0 < q < |placed| && IsExtent(placed[..q], hypot, maxd)
    ensures IsSpot(ScanOf(placed, q, gap, cos, sin), maxd + placed[q].r + gap, Point(placed[q].x, placed[q].y))
  {
    hide IsPlacement, IsExtent, IsSpot, GreedyFrom;
    GreedyPlaces(placed, q, gap, cos, sin, hypot);
    PlacementIsSpot(ScanOf(placed, q, gap, cos, sin), hypot, Point(placed[q].x, placed[q].y), maxd);
  }

  /** One of the points that `start` is turned to in n turns is clear of the circles before circle q. */
  ghost predicate HasFreePlace(placed: seq<Disc>, q: nat, gap: real, start: Point, c: real, s: real, n: int, hypot: (real, real) -> real)
    requires q < |placed|
  {
    exists k: nat :: k < n && IsFreePlace(placed, q, gap, TurnedTimes(start, c, s, k), hypot)
  }

  /** Put there, circle q would be at least the gap away from each circle before it. */
  ghost predicate IsFreePlace(placed: seq<Disc>, q: nat, gap: real, p: Point, hypot: (real, real) -> real)
    requires q < |placed|
  {
    forall k :: 0 <= k < q ==> hypot(p.x - placed[k].x, p.y - placed[k].y) >= placed[q].r + placed[k].r + gap
  }

  ghost predicate AreNotNegative(placed: seq<Disc>, gap: real) {
    gap >= 0.0 && forall k :: 0 <= k < |placed| ==> placed[k].r >= 0.0
  }

  lemma FarIsClear(x: real, y: real, r: real, p: Disc, gap: real, hypot: (real, real) -> real)
    requires IsHypot(hypot) && r >= 0.0 && p.r >= 0.0 && gap >= 0.0 && hypot(x - p.x, y - p.y) >= r + p.r + gap
    ensures Clear(x, y, r, p, gap)
  {
    var d := Distance(hypot, x - p.x, y - p.y);
    SquareOrder(r + p.r + gap, d);
  }

  lemma FreePlaceIsFree(placed: seq<Disc>, q: nat, gap: real, p: Point, hypot: (real, real) -> real)
    requires q < |placed| && IsHypot(hypot) && AreNotNegative(placed, gap) && IsFreePlace(placed, q, gap, p, hypot)
    ensures Free(p.x, p.y, placed[q].r, placed[..q], gap)
  {
    hide IsHypot, Clear;
    forall k | 0 <= k < q ensures Clear(p.x, p.y, placed[q].r, placed[..q][k], gap) {
      FarIsClear(p.x, p.y, placed[q].r, placed[k], gap, hypot);
    }
  }

  lemma FreePlaceIsSample(scan: Scan, rad: real, n: int, step: real, k: nat, p: Point)
    requires IsEvenGrid(scan, rad, n, step) && p == TurnedTimes(scan.At(rad, 0), scan.cos(step), scan.sin(step), k)
    requires Free(p.x, p.y, scan.r, scan.placed, scan.gap)
    ensures scan.FreeAt(rad, k)
  {
    hide Free, TurnedTimes;
    assert scan.At(rad, k) == p;
  }

  lemma FreePlaceHoldsIn(scan: Scan, reach: real, spot: Point, j: nat, step: real, k: nat, p: Point, hypot: (real, real) -> real)
    requires IsTurn(scan.cos, scan.sin) && IsHypot(hypot) && IsSpot(scan, reach, spot) && scan.Ring(j) <= reach
    requires IsEvenGrid(scan, scan.Ring(j), scan.Samples(scan.Ring(j)), step) && k < scan.Samples(scan.Ring(j))
    requires p == TurnedTimes(scan.At(scan.Ring(j), 0), scan.cos(step), scan.sin(step), k) && Free(p.x, p.y, scan.r, scan.placed, scan.gap)
    ensures hypot(spot.x, spot.y) <= scan.Ring(j)
  {
    hide *;
    FreePlaceIsSample(scan, scan.Ring(j), scan.Samples(scan.Ring(j)), step, k, p);
    SpotIsNoFartherOut(scan, reach, spot, j, k);
    RingIsPositive(scan, j);
    WithinRing(hypot, spot, scan.Ring(j));
  }

  lemma WithinRing(hypot: (real, real) -> real, p: Point, rad: real)
    requires IsHypot(hypot) && rad >= 0.0 && IsWithin(p, rad)
    ensures hypot(p.x, p.y) <= rad
  {
    var d := Distance(hypot, p.x, p.y);
    RootOrder(d, rad);
  }

  /** An even grid on the circle of radius rad, at least eight points at most `wide` and a sixteenth of it apart. */
  ghost predicate IsRingGrid(start: Point, n: int, step: real, rad: real, wide: real) {
    n >= 8 && n as real * step == 2.0 * PI && IsAtDistance(start, rad) && 2.0 * PI * rad <= n as real * (wide + wide / 16.0)
  }

  lemma GridOfRing(scan: Scan, j: nat) returns (step: real)
    requires IsRotation(scan.cos, scan.sin)
    ensures IsEvenGrid(scan, scan.Ring(j), scan.Samples(scan.Ring(j)), step)
    ensures IsRingGrid(scan.At(scan.Ring(j), 0), scan.Samples(scan.Ring(j)), step, scan.Ring(j), MaxReal(6.0, scan.r))
  {
    var rad := scan.Ring(j);
    RingIsPositive(scan, j);
    SamplesAreClose(scan, rad);
    step := SamplesAreEvenGrid(scan, rad);
    hide IsRotation, IsAtDistance, TurnedTimes, MaxReal;
  }

  /**
   For every ring up to the radius that clears all circles before, there is an even grid of at least
   eight points on it, at most max(6, r) and a sixteenth of it apart, such that the circle lies no
   farther out than the ring if one of these points is far enough from every circle before.
   */
  lemma LiesNoFartherOut(placed: seq<Disc>, q: nat, gap: real, cos: real -> real, sin: real -> real, hypot: (real, real) -> real,
                         maxd: real, j: nat)
    returns (start: Point, n: int, step: real, rad: real)
    requires IsRotation(cos, sin) && IsHypot(hypot) && GreedyFrom(placed, gap, cos, sin, hypot) && AreNotNegative(placed, gap)
    requires 0 < q < |placed| && IsExtent(placed[..q], hypot, maxd)
    ensures rad == RingRadius(j, placed[q].r)
    ensures IsRingGrid(start, n, step, rad, MaxReal(6.0, placed[q].r))
    ensures rad <= maxd + placed[q].r + gap && HasFreePlace(placed, q, gap, start, cos(step), sin(step), n, hypot) ==>
      hypot(placed[q].x, placed[q].y) <= rad
  {
    var scan := ScanOf(placed, q, gap, cos, sin);
    assert IsTurn(cos, sin) && scan.cos == cos && scan.sin == sin && scan.r == placed[q].r && scan.placed == placed[..q] && scan.gap == gap;
    hide *;
    step := GridOfRing(scan, j);
    RingsAreEven(scan, j);
    PlacedAtSpot(placed, q, gap, cos, sin, hypot, maxd);
    rad := scan.Ring(j);
    n, start := scan.Samples(rad), scan.At(rad, 0);
    FreePlacesHoldIn(scan, maxd + placed[q].r + gap, placed, q, gap, j, step, hypot);
  }

  lemma FreePlacesHoldIn(scan: Scan, reach: real, placed: seq<Disc>, q: nat, gap: real, j: nat, step: real, hypot: (real, real) -> real)
    requires q < |placed| && AreNotNegative(placed, gap) && scan.r == placed[q].r && scan.placed == placed[..q] && scan.gap == gap
    requires IsTurn(scan.cos, scan.sin) && IsHypot(hypot) && IsSpot(scan, reach, Point(placed[q].x, placed[q].y))
    requires IsEvenGrid(scan, scan.Ring(j), scan.Samples(scan.Ring(j)), step)
    ensures var rad := scan.Ring(j);
      rad <= reach && HasFreePlace(placed, q, gap, scan.At(rad, 0), scan.cos(step), scan.sin(step), scan.Samples(rad), hypot) ==>
        hypot(placed[q].x, placed[q].y) <= rad
  {
    hide IsTurn, IsHypot, IsSpot, IsEvenGrid, IsFreePlace, AreNotNegative, TurnedTimes, Free, Scan.At, Scan.Ring, Scan.Samples;
    var rad := scan.Ring(j);
    if rad <= reach && HasFreePlace(placed, q, gap, scan.At(rad, 0), scan.cos(step), scan.sin(step), scan.Samples(rad), hypot) {
      var k: nat :| k < scan.Samples(rad) && IsFreePlace(placed, q, gap, TurnedTimes(scan.At(rad, 0), scan.cos(step), scan.sin(step), k), hypot);
      var p := TurnedTimes(scan.At(rad, 0), scan.cos(step), scan.sin(step), k);
      FreePlaceIsFree(placed, q, gap, p, hypot);
      FreePlaceHoldsIn(scan, reach, Point(placed[q].x, placed[q].y), j, step, k, p, hypot);
    }
  }

  lemma FallbackIsClear(scan: Scan, reach: real)
    requires IsTurn(scan.cos, scan.sin)
    ensures IsAtDistance(Fallback(scan, reach), reach)
  {
    var ang := |scan.placed| as real * GOLDEN_ANGLE;
    OnCircle(scan.cos(ang), scan.sin(ang), reach);
  }

  lemma SampleOrFallback(scan: Scan, reach: real, spot: Point) returns (m: nat, i: int)
    requires IsSpot(scan, reach, spot)
    ensures spot == Fallback(scan, reach) || spot == scan.At(scan.Ring(m), i)
  {
    hide Scan.At, Scan.FreeAt, Scan.RingBlocked, Scan.Samples, Scan.Ring, Scan.BlockedBefore, Fallback, AllBlocked;
    m, i := 0, 0;
    if exists m: nat, i :: FirstFreeSample(scan, reach, m, i, spot) {
      m, i :| FirstFreeSample(scan, reach, m, i, spot);
    }
  }

  lemma SpotIsOnRingOrClear(scan: Scan, reach: real, spot: Point)
    requires IsTurn(scan.cos, scan.sin) && IsSpot(scan, reach, spot)
    ensures IsAtDistance(spot, reach) || exists j: nat :: IsAtDistance(spot, scan.Ring(j))
  {
    hide *;
    FallbackIsClear(scan, reach);
    var m, i := SampleOrFallback(scan, reach, spot);
    SampleIsOnRing(scan, scan.Ring(m), i);
  }

  /** A circle lies on one of the rings, or at the radius that clears all circles before. */
  lemma LiesOnRingOrClear(placed: seq<Disc>, q: nat, gap: real, cos: real -> real, sin: real -> real, hypot: (real, real) -> real, maxd: real)
    requires IsTurn(cos, sin) && GreedyFrom(placed, gap, cos, sin, hypot)
    requires 0 < q < |placed| && IsExtent(placed[..q], hypot, maxd)
    ensures var spot := Point(placed[q].x, placed[q].y);
      || IsAtDistance(spot, maxd + placed[q].r + gap)
      || exists j: nat :: IsAtDistance(spot, ScanOf(placed, q, gap, cos, sin).Ring(j))
  {
    PlacedAtSpot(placed, q, gap, cos, sin, hypot, maxd);
    hide GreedyFrom, IsExtent, IsSpot, IsTurn, IsAtDistance;
    SpotIsOnRingOrClear(ScanOf(placed, q, gap, cos, sin), maxd + placed[q].r + gap, Point(placed[q].x, placed[q].y));
  }
}
