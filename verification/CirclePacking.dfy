/**
 Circle packing for the graph view (public/utils.js, packGraphCircles).

 Circles are placed largest first.  Each takes the first free sample of a scan over concentric
 rings, or a position on the circle of radius `reach` when the scan finds nothing.  Both ways
 keep every two circles at least `gap` apart.  Cosine, sine and hypot are parameters of which
 only cos^2 + sin^2 = 1 and hypot's defining equation are known.
 */
module CirclePacking {
  import opened Options
  import opened RealGeometry

  const PI := 3.141592653589793
  const GOLDEN_ANGLE := 2.399963229

  /** A circle to place: its radius and its position in the input. */
  datatype Sized = Sized(r: real, i: nat)

  datatype Disc = Disc(x: real, y: real, r: real, i: nat)

  ghost predicate IsTurn(cos: real -> real, sin: real -> real) {
    forall a :: cos(a) * cos(a) + sin(a) * sin(a) == 1.0
  }

  function MaxReal(a: real, b: real): real { if a >= b then a else b }

  // ── The order of placement ────────────────────────────────────────────────

  /** Larger circles first; equal ones in input order, as a stable sort leaves them. */
  predicate Before(a: Sized, b: Sized) {
    a.r > b.r || (a.r == b.r && a.i < b.i)
  }

  ghost predicate Ordered(s: seq<Sized>) {
    forall k, l :: 0 <= k < l < |s| ==> Before(s[k], s[l])
  }

  function Insert(s: seq<Sized>, it: Sized): (r: seq<Sized>)
    ensures multiset(r) == multiset(s) + multiset{it}
  {
    if s == [] then [it]
    else if s[0].r >= it.r then
      assert s == [s[0]] + s[1..];
      [s[0]] + Insert(s[1..], it)
    else [it] + s
  }

  /** The first n inputs, in the order of placement. */
  function ByRadius(radii: seq<real>, n: nat): (r: seq<Sized>)
    requires n <= |radii|
    ensures |r| == n
  {
    if n == 0 then [] else
      var before := ByRadius(radii, n - 1);
      var it := Sized(radii[n - 1], n - 1);
      assert |multiset(Insert(before, it))| == n;
      Insert(before, it)
  }

  lemma {:induction false} InsertKeepsOrder(s: seq<Sized>, it: Sized)
    requires Ordered(s)
    requires forall k :: 0 <= k < |s| ==> s[k].i < it.i
    ensures Ordered(Insert(s, it))
  {
    if s != [] && s[0].r >= it.r {
      var tail := s[1..];
      InsertKeepsOrder(tail, it);
      var r := Insert(tail, it);
      forall k | 0 <= k < |r| ensures Before(s[0], r[k]) {
        assert r[k] in multiset(r);
        assert r[k] == it || r[k] in multiset(tail);
        if r[k] != it {
          assert r[k] in tail;
        }
      }
    }
  }

  lemma {:induction false} ByRadiusMembers(radii: seq<real>, n: nat)
    requires n <= |radii|
    ensures forall i :: 0 <= i < n ==> Sized(radii[i], i) in ByRadius(radii, n)
    ensures forall it :: it in ByRadius(radii, n) ==> it.i < n && it.r == radii[it.i]
  {
    if n > 0 {
      ByRadiusMembers(radii, n - 1);
      InsertMembers(ByRadius(radii, n - 1), Sized(radii[n - 1], n - 1));
      hide Insert;
    }
  }

  lemma {:induction false} ByRadiusIsOrdered(radii: seq<real>, n: nat)
    requires n <= |radii|
    ensures Ordered(ByRadius(radii, n))
  {
    if n > 0 {
      hide Ordered, Insert;
      ByRadiusIsOrdered(radii, n - 1);
      EarlierIndexes(radii, n - 1);
      InsertKeepsOrder(ByRadius(radii, n - 1), Sized(radii[n - 1], n - 1));
    }
  }

  lemma EarlierIndexes(radii: seq<real>, n: nat)
    requires n <= |radii|
    ensures forall k :: 0 <= k < |ByRadius(radii, n)| ==> ByRadius(radii, n)[k].i < n
  {
    ByRadiusMembers(radii, n);
    hide ByRadius;
  }

  /** Placement order is a permutation of the inputs, sorted by falling radius and stable. */
  lemma ByRadiusIsStableSort(radii: seq<real>, n: nat)
    requires n <= |radii|
    ensures Ordered(ByRadius(radii, n))
    ensures forall i :: 0 <= i < n ==> Sized(radii[i], i) in ByRadius(radii, n)
    ensures forall it :: it in ByRadius(radii, n) ==> it.i < n && it.r == radii[it.i]
  {
    ByRadiusMembers(radii, n);
    ByRadiusIsOrdered(radii, n);
  }

  lemma InsertMembers(s: seq<Sized>, it: Sized)
    ensures forall x :: x in Insert(s, it) <==> x in s || x == it
  {
    hide Insert;
    forall x ensures x in Insert(s, it) <==> x in s || x == it {
      assert x in Insert(s, it) <==> x in multiset(Insert(s, it));
      assert x in s <==> x in multiset(s);
    }
  }

  // ── Distances ─────────────────────────────────────────────────────────────

  function Square(x: real): real { x * x }

  function DistanceSquared(px: real, py: real, qx: real, qy: real): real {
    Square(px - qx) + Square(py - qy)
  }

  /** The collision test of the scan: squared distance at least the square of the needed distance. */
  predicate Clear(x: real, y: real, r: real, p: Disc, gap: real) {
    DistanceSquared(x, y, p.x, p.y) >= Square(r + p.r + gap)
  }

  predicate Free(x: real, y: real, r: real, placed: seq<Disc>, gap: real) {
    forall k :: 0 <= k < |placed| ==> Clear(x, y, r, placed[k], gap)
  }

  ghost predicate Spaced(placed: seq<Disc>, gap: real) {
    forall k, l :: 0 <= k < l < |placed| ==> Clear(placed[l].x, placed[l].y, placed[l].r, placed[k], gap)
  }

  lemma CauchySchwarz(qx: real, qy: real, px: real, py: real, b: real, d: real)
    requires b >= 0.0 && d >= 0.0
    requires qx * qx + qy * qy == b * b && px * px + py * py == d * d
    ensures qx * px + qy * py <= b * d
  {
    var dot := qx * px + qy * py;
    var cross := qx * py - qy * px;
    var bd := b * d;
    ProductNonNegative(b, d);
    assert dot * dot + cross * cross == (qx * qx + qy * qy) * (px * px + py * py);
    SubstitutedProduct(qx * qx + qy * qy, b * b, px * px + py * py, d * d);
    assert (b * b) * (d * d) == bd * bd;
    SquareNonNegative(cross);
    RootOrder(dot, bd);
  }

  lemma SubstitutedProduct(x: real, x': real, y: real, y': real)
    requires x == x' && y == y'
    ensures x * y == x' * y'
  {
  }

  lemma RootOrder(x: real, y: real)
    requires y >= 0.0 && x * x <= y * y
    ensures x <= y
  {
    assert (x - y) * (x + y) == x * x - y * y;
    if x > y {
      ProductPositive(x - y, x + y);
    }
  }

  lemma SquareOrder(x: real, y: real)
    requires 0.0 <= x <= y
    ensures x * x <= y * y
  {
    ProductNonNegative(y - x, y + x);
    assert (y - x) * (y + x) == y * y - x * x;
  }

  lemma DistanceExpands(qx: real, qy: real, px: real, py: real)
    ensures DistanceSquared(qx, qy, px, py) == qx * qx + qy * qy + px * px + py * py - 2.0 * (qx * px + qy * py)
  {
    assert (qx - px) * (qx - px) == qx * qx - 2.0 * (qx * px) + px * px;
    assert (qy - py) * (qy - py) == qy * qy - 2.0 * (qy * py) + py * py;
  }

  /** A point at distance b from the origin is at least b - d away from a point at distance d. */
  lemma ReverseTriangle(qx: real, qy: real, px: real, py: real, b: real, d: real, need: real)
    requires b >= 0.0 && d >= 0.0
    requires qx * qx + qy * qy == b * b && px * px + py * py == d * d
    requires 0.0 <= need <= b - d
    ensures DistanceSquared(qx, qy, px, py) >= Square(need)
  {
    CauchySchwarz(qx, qy, px, py, b, d);
    SquareOrder(need, b - d);
    assert (b - d) * (b - d) == b * b - 2.0 * (b * d) + d * d;
    DistanceExpands(qx, qy, px, py);
    hide DistanceSquared;
  }

  // ── The ring scan ─────────────────────────────────────────────────────────

  function Round(x: real): int { (x + 0.5).Floor }

  /** The scan for a place for one circle of radius r among the circles already placed. */
  datatype Scan = Scan(r: real, gap: real, placed: seq<Disc>, cos: real -> real, sin: real -> real) {
    function Step(): real { MaxReal(3.0, r * 0.5) }

    /** Radius of ring m, by repeated addition of the step. */
    function Ring(m: nat): real {
      if m == 0 then Step() else Ring(m - 1) + Step()
    }

    function Samples(rad: real): (n: int)
      ensures n >= 8
    {
      var n := Round(2.0 * PI * rad / MaxReal(6.0, r));
      if n >= 8 then n else 8
    }

    function At(rad: real, k: int): Point {
      var ang := k as real / Samples(rad) as real * 2.0 * PI + rad * 0.618;
      Point(cos(ang) * rad, sin(ang) * rad)
    }

    predicate FreeAt(rad: real, k: int) {
      Free(At(rad, k).x, At(rad, k).y, r, placed, gap)
    }

    /** No sample of ring m with a number below k is free. */
    ghost predicate RingBlocked(m: nat, k: int) {
      forall k' :: 0 <= k' < k ==> !FreeAt(Ring(m), k')
    }

    /** Every sample of the rings before ring m is blocked. */
    ghost predicate BlockedBefore(m: nat) {
      forall m' :: 0 <= m' < m ==> RingBlocked(m', Samples(Ring(m')))
    }

    lemma {:induction false} RingsGrow(m: nat, m': nat)
      requires m <= m'
      ensures Ring(m) <= Ring(m')
      decreases m' - m
    {
      if m < m' {
        RingsGrow(m, m' - 1);
      }
    }

    /** The collision test against every placed circle, stopping at the first hit. */
    method TestSample(rad: real, k: int) returns (ok: bool)
      ensures ok == FreeAt(rad, k)
    {
      var p := At(rad, k);
      ok := true;
      var j := 0;
      while j < |placed| && ok
        invariant 0 <= j <= |placed|
        invariant ok ==> forall l :: 0 <= l < j ==> Clear(p.x, p.y, r, placed[l], gap)
        invariant !ok ==> !Free(p.x, p.y, r, placed, gap)
      {
        if !Clear(p.x, p.y, r, placed[j], gap) {
          ok := false;
        }
        j := j + 1;
      }
    }

    /**
     Scans the rings outward up to `reach`.  Some(p) is the first free sample in scan order:
     all samples of the rings before ring m, and those before sample k of ring m, are blocked.
     None says that every sample of every ring up to `reach` is blocked.
     */
    method FirstFree(reach: real) returns (best: Option<Point>, ghost m: nat, ghost k: int)
      ensures best.Some? ==>
                && Ring(m) <= reach && 0 <= k < Samples(Ring(m))
                && best.value == At(Ring(m), k) && FreeAt(Ring(m), k)
                && BlockedBefore(m) && RingBlocked(m, k)
      ensures best.None? ==>
                forall m' :: 0 <= m' && Ring(m') <= reach ==> RingBlocked(m', Samples(Ring(m')))
    {
      best := None;
      m, k := 0, 0;
      var rad := Step();
      while rad <= reach && best.None?
        invariant best.None? ==> rad == Ring(m) && BlockedBefore(m)
        invariant best.Some? ==>
                    && Ring(m) <= reach && 0 <= k < Samples(Ring(m))
                    && best.value == At(Ring(m), k) && FreeAt(Ring(m), k)
                    && BlockedBefore(m) && RingBlocked(m, k)
        decreases best.None?, reach - rad
      {
        var samples := Samples(rad);
        var at := 0;
        while at < samples && best.None?
          invariant 0 <= at <= samples
          invariant best.None? ==> RingBlocked(m, at)
          invariant best.Some? ==>
                      && 0 <= k < samples && best.value == At(rad, k) && FreeAt(rad, k)
                      && RingBlocked(m, k)
        {
          var ok := TestSample(rad, at);
          if ok {
            best := Some(At(rad, at));
            k := at;
          }
          at := at + 1;
        }
        if best.None? {
          m := m + 1;
        }
        rad := rad + Step();
      }
      if best.None? {
        forall m' | 0 <= m' && Ring(m') <= reach ensures RingBlocked(m', Samples(Ring(m'))) {
          if m' >= m {
            RingsGrow(m, m');
          }
        }
      }
    }
  }

  // ── The packing ───────────────────────────────────────────────────────────

  /** The bounding radius m of the placed circles: the farthest edge, or 0 without circles. */
  ghost predicate IsExtent(placed: seq<Disc>, hypot: (real, real) -> real, m: real) {
    && m >= 0.0
    && (forall p :: p in placed ==> hypot(p.x, p.y) + p.r <= m)
    && (m == 0.0 || exists p :: p in placed && m == hypot(p.x, p.y) + p.r)
  }

  method Extent(placed: seq<Disc>, hypot: (real, real) -> real) returns (m: real)
    ensures IsExtent(placed, hypot, m)
  {
    m := 0.0;
    var k := 0;
    while k < |placed|
      invariant 0 <= k <= |placed|
      invariant IsExtent(placed[..k], hypot, m)
    {
      var p := placed[k];
      assert placed[..k + 1] == placed[..k] + [p];
      m := MaxReal(m, hypot(p.x, p.y) + p.r);
      k := k + 1;
    }
    assert placed[..k] == placed;
  }

  /** The fallback position on the circle of radius `reach` clears every placed circle. */
  lemma FallbackIsFree(placed: seq<Disc>, hypot: (real, real) -> real, maxd: real, r: real, gap: real,
                       x: real, y: real, reach: real)
    requires IsHypot(hypot) && IsExtent(placed, hypot, maxd)
    requires r >= 0.0 && gap >= 0.0 && forall p :: p in placed ==> p.r >= 0.0
    requires reach == maxd + r + gap
    requires x * x + y * y == reach * reach
    ensures Free(x, y, r, placed, gap)
  {
    hide Clear;
    forall k | 0 <= k < |placed| ensures Clear(x, y, r, placed[k], gap) {
      assert placed[k] in placed;
      FarFromOne(placed[k], hypot, maxd, r, gap, x, y, reach);
    }
  }

  lemma FarFromOne(p: Disc, hypot: (real, real) -> real, maxd: real, r: real, gap: real, x: real, y: real, reach: real)
    requires IsHypot(hypot) && hypot(p.x, p.y) + p.r <= maxd
    requires r >= 0.0 && gap >= 0.0 && p.r >= 0.0
    requires reach == maxd + r + gap
    requires x * x + y * y == reach * reach
    ensures Clear(x, y, r, p, gap)
  {
    var d := Distance(hypot, p.x, p.y);
    hide *;
    ReverseTriangle(x, y, p.x, p.y, reach, d, r + p.r + gap);
    CollisionTest(x, y, r, p, gap);
  }

  lemma CollisionTest(x: real, y: real, r: real, p: Disc, gap: real)
    ensures Clear(x, y, r, p, gap) == (DistanceSquared(x, y, p.x, p.y) >= Square(r + p.r + gap))
  {
  }

  lemma Distance(hypot: (real, real) -> real, x: real, y: real) returns (d: real)
    requires IsHypot(hypot)
    ensures d == hypot(x, y) && d >= 0.0 && x * x + y * y == d * d
  {
    d := hypot(x, y);
  }

  lemma OnCircle(c: real, s: real, radius: real)
    requires c * c + s * s == 1.0
    ensures (c * radius) * (c * radius) + (s * radius) * (s * radius) == radius * radius
  {
    assert (c * radius) * (c * radius) + (s * radius) * (s * radius) == (c * c + s * s) * (radius * radius);
  }

  /** Where the scan and its fallback put one more circle. */
  ghost predicate IsPlacement(scan: Scan, hypot: (real, real) -> real, spot: Point) {
    exists maxd :: IsExtent(scan.placed, hypot, maxd) && IsSpot(scan, maxd + scan.r + scan.gap, spot)
  }

  ghost predicate IsSpot(scan: Scan, reach: real, spot: Point) {
    || (exists m: nat, k :: FirstFreeSample(scan, reach, m, k, spot))
    || (AllBlocked(scan, reach) && spot == Fallback(scan, reach))
  }

  /** Sample k of ring m is free, and it is the first free one in scan order. */
  ghost predicate FirstFreeSample(scan: Scan, reach: real, m: nat, k: int, spot: Point) {
    && scan.Ring(m) <= reach && 0 <= k < scan.Samples(scan.Ring(m))
    && spot == scan.At(scan.Ring(m), k) && scan.FreeAt(scan.Ring(m), k)
    && scan.BlockedBefore(m) && scan.RingBlocked(m, k)
  }

  ghost predicate AllBlocked(scan: Scan, reach: real) {
    forall m: nat :: scan.Ring(m) <= reach ==> scan.RingBlocked(m, scan.Samples(scan.Ring(m)))
  }

  function Fallback(scan: Scan, reach: real): Point {
    var ang := |scan.placed| as real * GOLDEN_ANGLE;
    Point(scan.cos(ang) * reach, scan.sin(ang) * reach)
  }

  lemma TurnedPoint(cos: real -> real, sin: real -> real, ang: real, reach: real) returns (x: real, y: real)
    requires IsTurn(cos, sin)
    ensures x == cos(ang) * reach && y == sin(ang) * reach && x * x + y * y == reach * reach
  {
    x, y := cos(ang) * reach, sin(ang) * reach;
    OnCircle(cos(ang), sin(ang), reach);
  }

  lemma FallbackSpot(scan: Scan, hypot: (real, real) -> real, maxd: real)
    requires IsTurn(scan.cos, scan.sin) && IsHypot(hypot) && IsExtent(scan.placed, hypot, maxd)
    requires scan.r >= 0.0 && scan.gap >= 0.0 && forall p :: p in scan.placed ==> p.r >= 0.0
    ensures var spot := Fallback(scan, maxd + scan.r + scan.gap); Free(spot.x, spot.y, scan.r, scan.placed, scan.gap)
  {
    hide Free, IsExtent, IsHypot, IsTurn;
    var reach := maxd + scan.r + scan.gap;
    var x, y := TurnedPoint(scan.cos, scan.sin, |scan.placed| as real * GOLDEN_ANGLE, reach);
    assert Fallback(scan, reach) == Point(x, y);
    FallbackIsFree(scan.placed, hypot, maxd, scan.r, scan.gap, x, y, reach);
  }

  lemma FoundSpot(scan: Scan, hypot: (real, real) -> real, maxd: real, m: nat, k: int, spot: Point)
    requires IsExtent(scan.placed, hypot, maxd) && FirstFreeSample(scan, maxd + scan.r + scan.gap, m, k, spot)
    ensures IsPlacement(scan, hypot, spot) && Free(spot.x, spot.y, scan.r, scan.placed, scan.gap)
  {
    hide Free, IsExtent;
  }

  /** A place for one more circle: the first free sample, or the fallback; free in both cases. */
  method PlaceOne(it: Sized, gap: real, placed: seq<Disc>, cos: real -> real, sin: real -> real,
                  hypot: (real, real) -> real) returns (spot: Point)
    requires IsTurn(cos, sin) && IsHypot(hypot)
    requires it.r >= 0.0 && gap >= 0.0 && forall p :: p in placed ==> p.r >= 0.0
    ensures Free(spot.x, spot.y, it.r, placed, gap)
    ensures IsPlacement(Scan(it.r, gap, placed, cos, sin), hypot, spot)
  {
    hide IsExtent, IsTurn, IsHypot, Free;
    var maxd := Extent(placed, hypot);
    var reach := maxd + it.r + gap;
    var scan := Scan(it.r, gap, placed, cos, sin);
    var best, m, k := scan.FirstFree(reach);
    if best.Some? {
      spot := best.value;
      FoundSpot(scan, hypot, maxd, m, k, spot);
    } else {
      var ang := |placed| as real * GOLDEN_ANGLE;
      spot := Point(cos(ang) * reach, sin(ang) * reach);
      FallbackSpot(scan, hypot, maxd);
      assert AllBlocked(scan, reach) && spot == Fallback(scan, reach);
    }
  }

  /** The circles in placement order, with the centres a packing gave them. */
  ghost function PlacedOf(order: seq<Sized>, centers: seq<Point>): (placed: seq<Disc>)
    requires forall it :: it in order ==> it.i < |centers|
    ensures |placed| == |order|
  {
    seq(|order|, k requires 0 <= k < |order| =>
      Disc(centers[order[k].i].x, centers[order[k].i].y, order[k].r, order[k].i))
  }

  /** The packing is greedy: the largest circle in the middle, each other one at its own placement. */
  ghost predicate GreedyFrom(placed: seq<Disc>, gap: real, cos: real -> real, sin: real -> real,
                             hypot: (real, real) -> real) {
    forall k :: 0 <= k < |placed| ==>
      if k == 0 then placed[0].x == 0.0 && placed[0].y == 0.0
      else IsPlacement(Scan(placed[k].r, gap, placed[..k], cos, sin), hypot, Point(placed[k].x, placed[k].y))
  }

  /** Places the circles one after another, in the given order. */
  method PlaceAll(order: seq<Sized>, gap: real, cos: real -> real, sin: real -> real, hypot: (real, real) -> real)
    returns (placed: seq<Disc>)
    requires IsTurn(cos, sin) && IsHypot(hypot)
    requires gap >= 0.0 && forall it :: it in order ==> it.r >= 0.0
    ensures SameCircles(placed, order)
    ensures Spaced(placed, gap)
    ensures GreedyFrom(placed, gap, cos, sin, hypot)
  {
    hide IsPlacement, Clear, IsTurn, IsHypot;
    placed := [];
    while |placed| < |order|
      invariant |placed| <= |order|
      invariant SameCircles(placed, order[..|placed|])
      invariant Spaced(placed, gap)
      invariant GreedyFrom(placed, gap, cos, sin, hypot)
    {
      var it := order[|placed|];
      var x, y := 0.0, 0.0;
      if |placed| > 0 {
        var spot := PlaceOne(it, gap, placed, cos, sin, hypot);
        x, y := spot.x, spot.y;
      }
      var next := placed + [Disc(x, y, it.r, it.i)];
      assert forall k :: 0 <= k <= |placed| ==> next[..k] == placed[..k];
      placed := next;
    }
    assert order[..|placed|] == order;
  }

  ghost predicate SameCircles(placed: seq<Disc>, order: seq<Sized>) {
    |placed| == |order| && forall k :: 0 <= k < |order| ==> placed[k].r == order[k].r && placed[k].i == order[k].i
  }

  /** The centres, back in input order. */
  method CentersOf(placed: seq<Disc>, order: seq<Sized>, n: nat) returns (centers: seq<Point>)
    requires SameCircles(placed, order)
    requires forall it :: it in order ==> it.i < n
    requires forall k, l :: 0 <= k < l < |order| ==> order[k].i != order[l].i
    ensures |centers| == n
    ensures placed == PlacedOf(order, centers)
  {
    var c := new Point[n](_ => Point(0.0, 0.0));
    var k := 0;
    while k < |placed|
      invariant 0 <= k <= |placed|
      invariant forall l :: 0 <= l < k ==> c[order[l].i] == Point(placed[l].x, placed[l].y)
    {
      assert order[k] in order;
      c[placed[k].i] := Point(placed[k].x, placed[k].y);
      k := k + 1;
    }
    centers := c[..];
  }

  ghost predicate Disjoint(centers: seq<Point>, radii: seq<real>, gap: real, hypot: (real, real) -> real)
    requires |centers| == |radii|
  {
    forall i, j :: 0 <= i < |radii| && 0 <= j < |radii| && i != j ==>
      hypot(centers[i].x - centers[j].x, centers[i].y - centers[j].y) >= radii[i] + radii[j] + gap
  }

  /** The order names every input circle exactly once. */
  ghost predicate Enumerates(order: seq<Sized>, radii: seq<real>) {
    && |order| == |radii|
    && (forall it :: it in order ==> it.i < |radii| && it.r == radii[it.i])
    && (forall k, l :: 0 <= k < l < |order| ==> order[k].i != order[l].i)
    && (forall i :: 0 <= i < |radii| ==> Sized(radii[i], i) in order)
  }

  lemma ByRadiusEnumerates(radii: seq<real>)
    ensures Enumerates(ByRadius(radii, |radii|), radii)
  {
    ByRadiusIsStableSort(radii, |radii|);
    var order := ByRadius(radii, |radii|);
    forall k, l | 0 <= k < l < |radii| ensures order[k].i != order[l].i {
      assert order[k] in order && order[l] in order;
      assert Before(order[k], order[l]);
    }
  }

  /** Spacing of the placed circles, read back in input order and as a distance. */
  lemma SpacedIsDisjoint(order: seq<Sized>, radii: seq<real>, centers: seq<Point>, gap: real,
                         hypot: (real, real) -> real)
    requires IsHypot(hypot) && gap >= 0.0 && |centers| == |radii|
    requires forall i :: 0 <= i < |radii| ==> radii[i] >= 0.0
    requires Enumerates(order, radii)
    requires Spaced(PlacedOf(order, centers), gap)
    ensures Disjoint(centers, radii, gap, hypot)
  {
    hide Clear, IsHypot;
    forall i, j | 0 <= i < |radii| && 0 <= j < |radii| && i != j
      ensures hypot(centers[i].x - centers[j].x, centers[i].y - centers[j].y) >= radii[i] + radii[j] + gap
    {
      assert Sized(radii[i], i) in order && Sized(radii[j], j) in order;
      var k :| 0 <= k < |order| && order[k] == Sized(radii[i], i);
      var l :| 0 <= l < |order| && order[l] == Sized(radii[j], j);
      PairIsApart(order, centers, k, l, gap, hypot);
    }
  }

  lemma PairIsApart(order: seq<Sized>, centers: seq<Point>, k: nat, l: nat, gap: real, hypot: (real, real) -> real)
    requires IsHypot(hypot) && gap >= 0.0
    requires forall it :: it in order ==> it.i < |centers|
    requires Spaced(PlacedOf(order, centers), gap)
    requires k < |order| && l < |order| && k != l
    requires order[k].r >= 0.0 && order[l].r >= 0.0
    ensures var p, q := centers[order[k].i], centers[order[l].i];
            hypot(p.x - q.x, p.y - q.y) >= order[k].r + order[l].r + gap
  {
    var placed := PlacedOf(order, centers);
    var p, q := centers[order[k].i], centers[order[l].i];
    hide Clear, IsHypot;
    if k < l {
      ClearIsDistance(placed[l], placed[k], gap, hypot, p.x - q.x, p.y - q.y);
    } else {
      ClearIsDistance(placed[k], placed[l], gap, hypot, p.x - q.x, p.y - q.y);
    }
  }

  lemma ClearIsDistance(q: Disc, p: Disc, gap: real, hypot: (real, real) -> real, dx: real, dy: real)
    requires IsHypot(hypot) && Clear(q.x, q.y, q.r, p, gap)
    requires (dx == q.x - p.x && dy == q.y - p.y) || (dx == p.x - q.x && dy == p.y - q.y)
    requires p.r >= 0.0 && q.r >= 0.0 && gap >= 0.0
    ensures hypot(dx, dy) >= p.r + q.r + gap
  {
    var d := Distance(hypot, dx, dy);
    assert dx * dx == (q.x - p.x) * (q.x - p.x) && dy * dy == (q.y - p.y) * (q.y - p.y);
    RootOrder(q.r + p.r + gap, d);
  }

  /** R encloses every circle and is attained, or is 0. */
  ghost predicate IsBound(centers: seq<Point>, radii: seq<real>, hypot: (real, real) -> real, R: real)
    requires |centers| == |radii|
  {
    && (forall i :: 0 <= i < |radii| ==> hypot(centers[i].x, centers[i].y) + radii[i] <= R)
    && (R == 0.0 || exists i :: 0 <= i < |radii| && hypot(centers[i].x, centers[i].y) + radii[i] == R)
  }

  lemma ExtentIsBound(order: seq<Sized>, radii: seq<real>, centers: seq<Point>, hypot: (real, real) -> real, R: real)
    requires |centers| == |radii|
    requires Enumerates(order, radii)
    requires IsExtent(PlacedOf(order, centers), hypot, R)
    ensures IsBound(centers, radii, hypot, R)
  {
    var placed := PlacedOf(order, centers);
    forall i | 0 <= i < |radii| ensures hypot(centers[i].x, centers[i].y) + radii[i] <= R {
      assert Sized(radii[i], i) in order;
      var k :| 0 <= k < |order| && order[k] == Sized(radii[i], i);
      assert placed[k] in placed;
    }
    if R != 0.0 {
      var p :| p in placed && R == hypot(p.x, p.y) + p.r;
      var k :| 0 <= k < |order| && placed[k] == p;
      assert order[k] in order;
    }
  }

  method PackGraphCircles(radii: seq<real>, gap: real, cos: real -> real, sin: real -> real,
                          hypot: (real, real) -> real) returns (centers: seq<Point>, R: real)
    requires IsTurn(cos, sin) && IsHypot(hypot)
    requires gap >= 0.0 && forall i :: 0 <= i < |radii| ==> radii[i] >= 0.0
    ensures |centers| == |radii|
    ensures Disjoint(centers, radii, gap, hypot)
    ensures IsBound(centers, radii, hypot, R)
    ensures forall it :: it in ByRadius(radii, |radii|) ==> it.i < |radii|
    ensures GreedyFrom(PlacedOf(ByRadius(radii, |radii|), centers), gap, cos, sin, hypot)
  {
    ByRadiusEnumerates(radii);
    hide IsPlacement, Spaced, IsExtent;
    var order := ByRadius(radii, |radii|);
    if |radii| <= 1 {
      centers := if |radii| == 1 then [Point(0.0, 0.0)] else [];
      R := if |radii| == 1 then radii[0] else 0.0;
      HypotOfOrigin(hypot);
      return;
    }
    hide Disjoint, IsBound, GreedyFrom, ByRadius;
    var placed := PlaceAll(order, gap, cos, sin, hypot);
    centers := CentersOf(placed, order, |radii|);
    R := Extent(placed, hypot);
    SpacedIsDisjoint(order, radii, centers, gap, hypot);
    ExtentIsBound(order, radii, centers, hypot, R);
  }

  lemma HypotOfOrigin(hypot: (real, real) -> real)
    requires IsHypot(hypot)
    ensures hypot(0.0, 0.0) == 0.0
  {
    var d := Distance(hypot, 0.0, 0.0);
    assert d * d == 0.0 * 0.0;
    RootOrder(d, 0.0);
  }
}
