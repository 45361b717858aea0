/**
 Monotone cubic interpolation for the stacked area chart (public/js/chart.js).

 The drawing method limits the tangents in one in-place pass.  Each tangent is shared by two
 segments, so a later step of the pass changes a tangent that an earlier step already settled.
 The results here say that this does no harm: whatever the pass does later, every emitted
 Bezier piece is monotone between its end points.
 */
module MonotonePath {
  import opened RealGeometry

  /** One cubic Bezier piece: end points p0 and p1, control points c1 and c2. */
  datatype Piece = Piece(p0: Point, c1: Point, c2: Point, p1: Point)

  ghost predicate StrictlyIncreasing(pts: seq<Point>) {
    forall i, j :: 0 <= i < j < |pts| ==> pts[i].x < pts[j].x
  }

  // ── What the tangent pass computes, as functions ──────────────────────────

  function Secant(p: Point, q: Point): real
    requires p.x < q.x
  {
    (q.y - p.y) / (q.x - p.x)
  }

  ghost function Secants(pts: seq<Point>): (m: seq<real>)
    requires |pts| >= 2 && StrictlyIncreasing(pts)
  {
    seq(|pts| - 1, i requires 0 <= i < |pts| - 1 => Secant(pts[i], pts[i + 1]))
  }

  function InteriorTangent(before: real, after: real): real {
    if before * after <= 0.0 then 0.0 else (before + after) / 2.0
  }

  ghost function InitialTangents(m: seq<real>): (t: seq<real>)
    requires |m| >= 1
  {
    seq(|m| + 1, i requires 0 <= i < |m| + 1 =>
      if i == 0 then m[0] else if i == |m| then m[|m| - 1] else InteriorTangent(m[i - 1], m[i]))
  }

  /** The tangent a * m pulled back to the circle of radius 3, where h is its current distance. */
  function PulledBack(a: real, h: real, m: real): real
    requires h > 3.0
  {
    (3.0 * a / h) * m
  }

  /** The two tangents of one segment after that segment's own step. */
  function LimitPair(m: real, t0: real, t1: real, hypot: (real, real) -> real): (real, real) {
    if m == 0.0 then (0.0, 0.0) else
      var a, b := t0 / m, t1 / m;
      var h := hypot(a, b);
      if h > 3.0 then (PulledBack(a, h, m), PulledBack(b, h, m)) else (t0, t1)
  }

  /** The tangents after the steps of segments 0 to k - 1. */
  ghost function Limited(t: seq<real>, m: seq<real>, k: nat, hypot: (real, real) -> real): (r: seq<real>)
    requires |t| == |m| + 1 && k <= |m|
    ensures |r| == |t|
  {
    if k == 0 then t else
      var prev := Limited(t, m, k - 1, hypot);
      var pair := LimitPair(m[k - 1], prev[k - 1], prev[k], hypot);
      prev[k - 1 := pair.0][k := pair.1]
  }

  ghost function Tangents(pts: seq<Point>, hypot: (real, real) -> real): (t: seq<real>)
    requires |pts| >= 2 && StrictlyIncreasing(pts)
    ensures |t| == |pts|
  {
    var m := Secants(pts);
    Limited(InitialTangents(m), m, |m|, hypot)
  }

  function PieceOf(p: Point, q: Point, t0: real, t1: real): Piece {
    var h := (q.x - p.x) / 3.0;
    Piece(p, Point(p.x + h, p.y + h * t0), Point(q.x - h, q.y - h * t1), q)
  }

  ghost function Path(pts: seq<Point>, hypot: (real, real) -> real): (path: seq<Piece>)
    requires StrictlyIncreasing(pts)
  {
    if |pts| < 2 then [] else
      var t := Tangents(pts, hypot);
      seq(|pts| - 1, i requires 0 <= i < |pts| - 1 => PieceOf(pts[i], pts[i + 1], t[i], t[i + 1]))
  }

  // ── The drawing method ────────────────────────────────────────────────────

  /** The tangent pass: every segment in turn rescales the two tangents it shares with its neighbours. */
  method LimitTangents(t: array<real>, m: seq<real>, hypot: (real, real) -> real)
    requires t.Length == |m| + 1
    modifies t
    ensures t[..] == Limited(old(t[..]), m, |m|, hypot)
  {
    hide PulledBack;
    ghost var initial := t[..];
    var i := 0;
    while i < |m|
      invariant 0 <= i <= |m|
      invariant t[..] == Limited(initial, m, i, hypot)
    {
      ghost var prev := t[..];
      if m[i] == 0.0 {
        t[i], t[i + 1] := 0.0, 0.0;
      } else {
        var a, b := t[i] / m[i], t[i + 1] / m[i];
        var h := hypot(a, b);
        if h > 3.0 {
          t[i], t[i + 1] := PulledBack(a, h, m[i]), PulledBack(b, h, m[i]);
        }
      }
      ghost var pair := LimitPair(m[i], prev[i], prev[i + 1], hypot);
      assert t[..] == prev[i := pair.0][i + 1 := pair.1];
      i := i + 1;
    }
  }

  method FillTangents(t: array<real>, m: seq<real>)
    requires |m| >= 1 && t.Length == |m| + 1
    modifies t
    ensures t[..] == InitialTangents(m)
  {
    hide InteriorTangent;
    t[0] := m[0];
    var i := 1;
    while i < |m|
      invariant 1 <= i <= |m|
      invariant forall k :: 0 <= k < i ==> t[k] == InitialTangents(m)[k]
    {
      t[i] := InteriorTangent(m[i - 1], m[i]);
      i := i + 1;
    }
    t[|m|] := m[|m| - 1];
    assert t[..] == InitialTangents(m);
  }

  method MonotonePath(pts: seq<Point>, hypot: (real, real) -> real) returns (path: seq<Piece>)
    requires IsHypot(hypot)
    requires StrictlyIncreasing(pts)
    ensures path == Path(pts, hypot)
    ensures forall i :: 0 <= i < |path| ==> MonotonePiece(path[i])
  {
    hide MonotonePiece, PieceOf, Secant, Limited, InteriorTangent, InitialTangents, IsHypot;
    var n := |pts|;
    if n < 2 {
      return [];
    }
    var m := [];
    var i := 0;
    while i < n - 1
      invariant 0 <= i <= n - 1
      invariant m == Secants(pts)[..i]
    {
      m := m + [Secant(pts[i], pts[i + 1])];
      i := i + 1;
    }
    assert m == Secants(pts);
    var t := new real[n];
    FillTangents(t, m);
    LimitTangents(t, m, hypot);
    path := [];
    i := 0;
    while i < n - 1
      invariant 0 <= i <= n - 1
      invariant t[..] == Tangents(pts, hypot)
      invariant path == Path(pts, hypot)[..i]
    {
      path := path + [PieceOf(pts[i], pts[i + 1], t[i], t[i + 1])];
      i := i + 1;
    }
    PiecesAreMonotone(pts, hypot);
  }

  // ── Monotonicity of one piece ─────────────────────────────────────────────

  function BezierAt(a: real, b: real, c: real, d: real, s: real): real {
    var u := 1.0 - s;
    u * u * u * a + 3.0 * u * u * s * b + 3.0 * u * s * s * c + s * s * s * d
  }

  function PieceX(p: Piece, s: real): real { BezierAt(p.p0.x, p.c1.x, p.c2.x, p.p1.x, s) }
  function PieceY(p: Piece, s: real): real { BezierAt(p.p0.y, p.c1.y, p.c2.y, p.p1.y, s) }

  /**
   Along the piece x strictly increases, and y moves only from p0.y towards p1.y.
   With s == 0 and s == 1 among the parameters this is also the absence of overshoot.
   */
  ghost predicate MonotonePiece(p: Piece) {
    && (forall s, s' :: 0.0 <= s < s' <= 1.0 ==> PieceX(p, s) < PieceX(p, s'))
    && (p.p0.y <= p.p1.y ==>
          forall s, s' :: 0.0 <= s <= s' <= 1.0 ==> PieceY(p, s) <= PieceY(p, s'))
    && (p.p0.y >= p.p1.y ==>
          forall s, s' :: 0.0 <= s <= s' <= 1.0 ==> PieceY(p, s) >= PieceY(p, s'))
  }

  /** Both tangents are non-negative multiples, a and b, of the segment's secant slope m. */
  ghost predicate Ratios(m: real, t0: real, t1: real, a: real, b: real) {
    a >= 0.0 && b >= 0.0 && t0 == a * m && t1 == b * m
  }

  ghost predicate Aligned(m: real, t0: real, t1: real) {
    exists a, b :: Ratios(m, t0, t1, a, b)
  }

  ghost predicate InCircle(a: real, b: real) {
    a * a + b * b <= 9.0
  }

  /** The limiter's goal for one segment: the two multiples lie in the circle of radius 3. */
  ghost predicate Tame(m: real, t0: real, t1: real) {
    exists a, b :: Ratios(m, t0, t1, a, b) && InCircle(a, b)
  }

  function Cubic(k1: real, k2: real, k3: real, s: real): real {
    k1 * s + k2 * (s * s) + k3 * (s * s * s)
  }

  function CubicSlope(k1: real, k2: real, k3: real, s: real): real {
    k1 + 2.0 * k2 * s + 3.0 * k3 * (s * s)
  }

  /** The mean slope of a cubic between s and s'. */
  function MeanSlope(k1: real, k2: real, k3: real, s: real, s': real): real {
    k1 + k2 * (s + s') + k3 * (s * s + s * s' + s' * s')
  }

  /** The cubic with unit rise whose end slopes are a and b, and its derivative. */
  function UnitCubic(a: real, b: real, s: real): real {
    Cubic(a, 3.0 - 2.0 * a - b, a + b - 2.0, s)
  }

  function UnitSlope(a: real, b: real, s: real): real {
    CubicSlope(a, 3.0 - 2.0 * a - b, a + b - 2.0, s)
  }

  lemma UnitSlopeForm(a: real, b: real, s: real)
    ensures UnitSlope(a, b, s) ==
            a * ((1.0 - s) * (1.0 - s)) - 2.0 * (a + b - 3.0) * ((1.0 - s) * s) + b * (s * s)
  {
  }

  /** A quadratic form with non-negative diagonal and c * c <= a * b is non-negative. */
  lemma QuadraticForm(a: real, b: real, c: real, u: real, v: real)
    requires a >= 0.0 && b >= 0.0 && u >= 0.0 && v >= 0.0
    requires c <= 0.0 || c * c <= a * b
    ensures a * (u * u) - 2.0 * c * (u * v) + b * (v * v) >= 0.0
  {
    SquareNonNegative(u);
    SquareNonNegative(v);
    ProductNonNegative(u, v);
    ProductNonNegative(a, u * u);
    ProductNonNegative(b, v * v);
    if c <= 0.0 {
      ProductNonNegative(-c, u * v);
    } else if a == 0.0 {
      ProductPositive(c, c);
    } else {
      CompletedSquare(a, b, c, u, v);
      SquareNonNegative(a * u - c * v);
      ProductNonNegative(a * b - c * c, v * v);
      FactorNonNegative(a, a * (u * u) - 2.0 * c * (u * v) + b * (v * v));
    }
  }

  lemma CompletedSquare(a: real, b: real, c: real, u: real, v: real)
    ensures a * (a * (u * u) - 2.0 * c * (u * v) + b * (v * v)) ==
            (a * u - c * v) * (a * u - c * v) + (a * b - c * c) * (v * v)
  {
    var uu, uv, vv := u * u, u * v, v * v;
    assert (a * u) * (a * u) == (a * a) * uu;
    assert (a * u) * (c * v) == (a * c) * uv;
    assert (c * v) * (c * v) == (c * c) * vv;
    assert a * (a * uu - 2.0 * c * uv + b * vv) == (a * a) * uu - 2.0 * (a * c) * uv + (a * b) * vv;
  }

  /** Inside the circle of radius 3 the unit cubic never descends: the Fritsch-Carlson condition. */
  lemma UnitSlopeNonNegative(a: real, b: real, s: real)
    requires a >= 0.0 && b >= 0.0 && a * a + b * b <= 9.0
    requires 0.0 <= s <= 1.0
    ensures UnitSlope(a, b, s) >= 0.0
  {
    FritschCarlson(a, b);
    QuadraticForm(a, b, a + b - 3.0, 1.0 - s, s);
    UnitSlopeForm(a, b, s);
  }

  lemma FritschCarlson(a: real, b: real)
    requires a >= 0.0 && b >= 0.0 && a * a + b * b <= 9.0
    ensures a + b - 3.0 <= 0.0 || (a + b - 3.0) * (a + b - 3.0) <= a * b
  {
    var p, q := a + b, a * b;
    assert p * p == a * a + b * b + 2.0 * q;
    SquareNonNegative(a - b);
    assert (a - b) * (a - b) == a * a + b * b - 2.0 * q;
    if p > 9.0 {
      ProductPositive(p - 9.0, p + 9.0);
      assert (p - 9.0) * (p + 9.0) == p * p - 81.0;
    }
    if p > 3.0 {
      ProductNonNegative(p - 3.0, 9.0 - p);
      assert (p - 3.0) * (9.0 - p) == 12.0 * p - p * p - 27.0;
      assert (p - 3.0) * (p - 3.0) == p * p - 6.0 * p + 9.0;
    }
  }

  /** Simpson's rule is exact for the slope of a cubic. */
  lemma SimpsonMean(k1: real, k2: real, k3: real, s: real, s': real)
    ensures CubicSlope(k1, k2, k3, s) + 4.0 * CubicSlope(k1, k2, k3, (s + s') / 2.0) + CubicSlope(k1, k2, k3, s')
            == 6.0 * MeanSlope(k1, k2, k3, s, s')
  {
    var mid := (s + s') / 2.0;
    assert mid * mid == (s * s + 2.0 * (s * s') + s' * s') / 4.0;
    assert 2.0 * k2 * mid == k2 * (s + s');
    assert 3.0 * k3 * (mid * mid) == 3.0 * k3 * (s * s + 2.0 * (s * s') + s' * s') / 4.0;
  }

  lemma CubicIncrement(k1: real, k2: real, k3: real, s: real, s': real)
    ensures Cubic(k1, k2, k3, s') - Cubic(k1, k2, k3, s) == (s' - s) * MeanSlope(k1, k2, k3, s, s')
  {
    var x2, x3 := s + s', s * s + s * s' + s' * s';
    Distribute(s' - s, k1, k2, k3, x2, x3);
    assert (s' - s) * x2 == s' * s' - s * s;
    assert (s' - s) * x3 == s' * s' * s' - s * s * s;
  }

  lemma Distribute(d: real, k1: real, k2: real, k3: real, x2: real, x3: real)
    ensures d * (k1 + k2 * x2 + k3 * x3) == d * k1 + k2 * (d * x2) + k3 * (d * x3)
  {
  }

  lemma UnitMeanNonNegative(a: real, b: real, s: real, s': real)
    requires a >= 0.0 && b >= 0.0 && a * a + b * b <= 9.0
    requires 0.0 <= s <= s' <= 1.0
    ensures MeanSlope(a, 3.0 - 2.0 * a - b, a + b - 2.0, s, s') >= 0.0
  {
    UnitSlopeNonNegative(a, b, s);
    UnitSlopeNonNegative(a, b, (s + s') / 2.0);
    UnitSlopeNonNegative(a, b, s');
    hide CubicSlope, MeanSlope;
    SimpsonMean(a, 3.0 - 2.0 * a - b, a + b - 2.0, s, s');
  }

  lemma UnitCubicMonotone(a: real, b: real, s: real, s': real)
    requires a >= 0.0 && b >= 0.0 && a * a + b * b <= 9.0
    requires 0.0 <= s <= s' <= 1.0
    ensures UnitCubic(a, b, s) <= UnitCubic(a, b, s')
  {
    hide Cubic, MeanSlope;
    UnitMeanNonNegative(a, b, s, s');
    CubicIncrement(a, 3.0 - 2.0 * a - b, a + b - 2.0, s, s');
    ProductNonNegative(s' - s, MeanSlope(a, 3.0 - 2.0 * a - b, a + b - 2.0, s, s'));
  }

  /** A Bezier ordinate with end slopes a and b (in units of the rise) is the scaled unit cubic. */
  lemma BezierIsUnitCubic(y0: real, dy: real, a: real, b: real, s: real)
    ensures BezierAt(y0, y0 + a * dy / 3.0, y0 + dy - b * dy / 3.0, y0 + dy, s) == y0 + dy * UnitCubic(a, b, s)
  {
    var u := 1.0 - s;
    var s2, s3 := s * s, s * s * s;
    assert u * u == 1.0 - 2.0 * s + s2;
    assert u * u * u == 1.0 - 3.0 * s + 3.0 * s2 - s3;
    assert u * u * s == s - 2.0 * s2 + s3;
    assert u * s * s == s2 - s3;
    var ady, bdy := a * dy, b * dy;
    assert dy * UnitCubic(a, b, s) == ady * s + (3.0 * dy - 2.0 * ady - bdy) * s2 + (ady + bdy - 2.0 * dy) * s3;
  }

  lemma PieceXIsLinear(p: Point, q: Point, t0: real, t1: real, s: real)
    ensures PieceX(PieceOf(p, q, t0, t1), s) == p.x + (q.x - p.x) * s
  {
    BezierIsUnitCubic(p.x, q.x - p.x, 1.0, 1.0, s);
    assert UnitCubic(1.0, 1.0, s) == s;
  }

  lemma PieceYIsUnitCubic(p: Point, q: Point, t0: real, t1: real, a: real, b: real, s: real)
    requires p.x < q.x
    requires Ratios(Secant(p, q), t0, t1, a, b)
    ensures PieceY(PieceOf(p, q, t0, t1), s) == p.y + (q.y - p.y) * UnitCubic(a, b, s)
  {
    var dx, dy, m := q.x - p.x, q.y - p.y, Secant(p, q);
    assert dx * m == dy;
    Third(dx, m, dy, a);
    Third(dx, m, dy, b);
    BezierIsUnitCubic(p.y, dy, a, b, s);
  }

  lemma Third(dx: real, m: real, dy: real, a: real)
    requires dx * m == dy
    ensures dx / 3.0 * (a * m) == a * dy / 3.0
  {
    assert dx * (a * m) == a * (dx * m);
  }

  /** Tame tangents make a monotone piece. */
  lemma TamePieceIsMonotone(p: Point, q: Point, t0: real, t1: real)
    requires p.x < q.x
    requires Tame(Secant(p, q), t0, t1)
    ensures MonotonePiece(PieceOf(p, q, t0, t1))
  {
    forall s, s' | 0.0 <= s < s' <= 1.0 ensures PieceX(PieceOf(p, q, t0, t1), s) < PieceX(PieceOf(p, q, t0, t1), s') {
      PieceAdvances(p, q, t0, t1, s, s');
    }
    forall s, s' | 0.0 <= s <= s' <= 1.0
      ensures p.y <= q.y ==> PieceY(PieceOf(p, q, t0, t1), s) <= PieceY(PieceOf(p, q, t0, t1), s')
      ensures p.y >= q.y ==> PieceY(PieceOf(p, q, t0, t1), s) >= PieceY(PieceOf(p, q, t0, t1), s')
    {
      PieceClimbs(p, q, t0, t1, s, s');
    }
    hide PieceX, PieceY;
  }

  lemma PieceAdvances(p: Point, q: Point, t0: real, t1: real, s: real, s': real)
    requires p.x < q.x && s < s'
    ensures PieceX(PieceOf(p, q, t0, t1), s) < PieceX(PieceOf(p, q, t0, t1), s')
  {
    hide *;
    PieceXIsLinear(p, q, t0, t1, s);
    PieceXIsLinear(p, q, t0, t1, s');
    ProductPositive(q.x - p.x, s' - s);
  }

  lemma PieceClimbs(p: Point, q: Point, t0: real, t1: real, s: real, s': real)
    requires p.x < q.x && 0.0 <= s <= s' <= 1.0
    requires Tame(Secant(p, q), t0, t1)
    ensures p.y <= q.y ==> PieceY(PieceOf(p, q, t0, t1), s) <= PieceY(PieceOf(p, q, t0, t1), s')
    ensures p.y >= q.y ==> PieceY(PieceOf(p, q, t0, t1), s) >= PieceY(PieceOf(p, q, t0, t1), s')
  {
    hide *;
    var a, b := TameRatios(Secant(p, q), t0, t1);
    PieceYIsUnitCubic(p, q, t0, t1, a, b, s);
    PieceYIsUnitCubic(p, q, t0, t1, a, b, s');
    UnitCubicMonotone(a, b, s, s');
    ScaledOrder(q.y - p.y, UnitCubic(a, b, s), UnitCubic(a, b, s'));
  }

  lemma TameRatios(m: real, t0: real, t1: real) returns (a: real, b: real)
    requires Tame(m, t0, t1)
    ensures Ratios(m, t0, t1, a, b) && a >= 0.0 && b >= 0.0 && a * a + b * b <= 9.0
  {
    a, b :| Ratios(m, t0, t1, a, b) && InCircle(a, b);
  }

  lemma ScaledOrder(k: real, x: real, y: real)
    requires x <= y
    ensures k >= 0.0 ==> k * x <= k * y
    ensures k <= 0.0 ==> k * x >= k * y
  {
    if k >= 0.0 {
      ProductNonNegative(k, y - x);
    } else {
      ProductNonNegative(-k, y - x);
    }
  }

  // ── The in-place pass leaves every segment tame ───────────────────────────

  /** Shrinking the tangents towards zero keeps a segment aligned and tame. */
  lemma ShrinkKeeps(m: real, t0: real, t1: real, l0: real, l1: real, r0: real, r1: real)
    requires 0.0 <= l0 <= 1.0 && 0.0 <= l1 <= 1.0
    requires r0 == l0 * t0 && r1 == l1 * t1
    ensures Aligned(m, t0, t1) ==> Aligned(m, r0, r1)
    ensures Tame(m, t0, t1) ==> Tame(m, r0, r1)
  {
    if Tame(m, t0, t1) {
      var a, b :| Ratios(m, t0, t1, a, b) && InCircle(a, b);
      var a' := ShrinkMultiple(m, t0, a, l0, r0);
      var b' := ShrinkMultiple(m, t1, b, l1, r1);
      assert Ratios(m, r0, r1, a', b') && InCircle(a', b');
    } else if Aligned(m, t0, t1) {
      var a, b :| Ratios(m, t0, t1, a, b);
      var a' := ShrinkMultiple(m, t0, a, l0, r0);
      var b' := ShrinkMultiple(m, t1, b, l1, r1);
      assert Ratios(m, r0, r1, a', b');
    }
  }

  lemma ShrinkMultiple(m: real, t: real, a: real, l: real, r: real) returns (a': real)
    requires a >= 0.0 && 0.0 <= l <= 1.0 && t == a * m && r == l * t
    ensures a' == l * a && a' >= 0.0 && r == a' * m
    ensures a' * a' <= a * a
  {
    ProductNonNegative(l, a);
    a' := ShrinkSquare(a, l);
    assert (l * a) * m == l * (a * m);
  }

  lemma ShrinkSquare(t: real, l: real) returns (r: real)
    requires 0.0 <= l <= 1.0
    ensures r == l * t && r * r <= t * t
  {
    ProductNonNegative(1.0 - l, 1.0 + l);
    SquareNonNegative(t);
    ProductNonNegative((1.0 - l) * (1.0 + l), t * t);
    assert (1.0 - l) * (1.0 + l) == 1.0 - l * l;
    r := l * t;
    assert r * r == (l * l) * (t * t);
  }

  lemma Cancel(a: real, m: real)
    requires m != 0.0
    ensures (a * m) / m == a
  {
  }

  /** One step of the pass: both tangents shrink by a common factor l, and its own segment ends tame. */
  lemma LimitPairShrinks(m: real, t0: real, t1: real, hypot: (real, real) -> real)
    returns (l: real, r0: real, r1: real)
    requires IsHypot(hypot)
    requires Aligned(m, t0, t1)
    ensures 0.0 <= l <= 1.0 && r0 == l * t0 && r1 == l * t1
    ensures LimitPair(m, t0, t1, hypot) == (r0, r1)
    ensures Tame(m, r0, r1)
  {
    var a, b :| Ratios(m, t0, t1, a, b);
    if m == 0.0 {
      l, r0, r1 := 0.0, 0.0, 0.0;
      assert Ratios(m, r0, r1, 0.0, 0.0) && InCircle(0.0, 0.0);
    } else {
      l, r0, r1 := LimitScales(m, t0, t1, a, b, hypot);
      hide InCircle, LimitPair;
      var a' := ShrinkMultiple(m, t0, a, l, r0);
      var b' := ShrinkMultiple(m, t1, b, l, r1);
      assert Ratios(m, r0, r1, a', b');
    }
  }

  lemma LimitScales(m: real, t0: real, t1: real, a: real, b: real, hypot: (real, real) -> real)
    returns (l: real, r0: real, r1: real)
    requires IsHypot(hypot)
    requires m != 0.0 && t0 == a * m && t1 == b * m
    ensures 0.0 <= l <= 1.0 && r0 == l * t0 && r1 == l * t1
    ensures LimitPair(m, t0, t1, hypot) == (r0, r1)
    ensures InCircle(l * a, l * b)
  {
    Cancel(a, m);
    Cancel(b, m);
    var h := hypot(a, b);
    if h > 3.0 {
      l := Reciprocal(h);
      OnCircle(a, b, h, l);
      hide InCircle, PulledBack;
      r0 := Rescaled(m, t0, a, h, l);
      r1 := Rescaled(m, t1, b, h, l);
    } else {
      l, r0, r1 := 1.0, t0, t1;
      ShortHypot(h);
    }
  }

  lemma Reciprocal(h: real) returns (l: real)
    requires h > 3.0
    ensures 0.0 < l < 1.0 && l * h == 3.0
  {
    l := 3.0 / h;
  }

  lemma Rescaled(m: real, t: real, a: real, h: real, l: real) returns (r: real)
    requires h > 3.0 && l * h == 3.0 && t == a * m
    ensures r == PulledBack(a, h, m) && r == l * t
  {
    Cancel(l * a, h);
    assert (l * a) * h == 3.0 * a by { assert (l * a) * h == (l * h) * a; }
    assert (l * a) * m == l * (a * m);
    r := l * t;
  }

  lemma OnCircle(a: real, b: real, h: real, l: real)
    requires h * h == a * a + b * b && l * h == 3.0
    ensures InCircle(l * a, l * b)
  {
    var a' := Scaled(a, l);
    var b' := Scaled(b, l);
    assert (l * l) * (h * h) == (l * h) * (l * h);
    assert InCircle(a', b');
  }

  lemma Scaled(a: real, l: real) returns (r: real)
    ensures r == l * a && r * r == (l * l) * (a * a)
  {
    r := l * a;
  }

  lemma ShortHypot(h: real)
    requires 0.0 <= h <= 3.0
    ensures h * h <= 9.0
  {
    ProductNonNegative(3.0 - h, 3.0 + h);
  }

  lemma InitialTangentsAligned(m: seq<real>, j: nat)
    requires j < |m|
    ensures Aligned(m[j], InitialTangents(m)[j], InitialTangents(m)[j + 1])
  {
    hide InteriorTangent;
    var t := InitialTangents(m);
    var a, b := 1.0, 1.0;
    if j > 0 {
      a := InteriorMultiple(m[j], m[j - 1]);
    }
    if j + 1 < |m| {
      b := InteriorMultiple(m[j], m[j + 1]);
    }
    assert Ratios(m[j], t[j], t[j + 1], a, b);
  }

  /** The tangent between two segments is a non-negative multiple of either secant. */
  lemma InteriorMultiple(m: real, other: real) returns (a: real)
    ensures a >= 0.0
    ensures InteriorTangent(m, other) == a * m && InteriorTangent(other, m) == a * m
  {
    if m * other <= 0.0 {
      a := 0.0;
    } else {
      var r := PositiveRatio(m, other);
      a := (1.0 + r) / 2.0;
      assert a * m == (m + r * m) / 2.0;
    }
  }

  lemma PositiveRatio(m: real, other: real) returns (r: real)
    requires m * other > 0.0
    ensures r > 0.0 && other == r * m
  {
    assert m != 0.0;
    r := other / m;
  }

  ghost predicate AlignedAt(t: seq<real>, m: seq<real>, j: nat)
    requires |t| == |m| + 1 && j < |m|
  {
    Aligned(m[j], t[j], t[j + 1])
  }

  ghost predicate TameAt(t: seq<real>, m: seq<real>, j: nat)
    requires |t| == |m| + 1 && j < |m|
  {
    Tame(m[j], t[j], t[j + 1])
  }

  /** After k steps every segment is still aligned, and the first k segments are tame for good. */
  lemma {:induction false} LimitedIsTame(t: seq<real>, m: seq<real>, k: nat, hypot: (real, real) -> real)
    requires IsHypot(hypot)
    requires |t| == |m| + 1 && k <= |m|
    requires forall j :: 0 <= j < |m| ==> AlignedAt(t, m, j)
    ensures forall j :: 0 <= j < |m| ==> AlignedAt(Limited(t, m, k, hypot), m, j)
    ensures forall j :: 0 <= j < k ==> TameAt(Limited(t, m, k, hypot), m, j)
  {
    if k > 0 {
      LimitedIsTame(t, m, k - 1, hypot);
      hide AlignedAt, TameAt;
      var prev := Limited(t, m, k - 1, hypot);
      forall j | 0 <= j < |m|
        ensures AlignedAt(Limited(t, m, k, hypot), m, j)
        ensures j < k ==> TameAt(Limited(t, m, k, hypot), m, j)
      {
        LimitStep(prev, m, k - 1, hypot, j, Limited(t, m, k, hypot));
      }
    }
  }

  /** Step i settles segment i and disturbs neither neighbour. */
  lemma LimitStep(prev: seq<real>, m: seq<real>, i: nat, hypot: (real, real) -> real, j: nat, r: seq<real>)
    requires IsHypot(hypot)
    requires |prev| == |m| + 1 && i < |m| && j < |m|
    requires AlignedAt(prev, m, i) && AlignedAt(prev, m, j)
    requires var pair := LimitPair(m[i], prev[i], prev[i + 1], hypot); r == prev[i := pair.0][i + 1 := pair.1]
    ensures AlignedAt(r, m, j)
    ensures j == i || TameAt(prev, m, j) ==> TameAt(r, m, j)
  {
    hide Tame, Aligned, LimitPair;
    var l, r0, r1 := LimitPairShrinks(m[i], prev[i], prev[i + 1], hypot);
    if j == i {
      TameIsAligned(m[j], r0, r1);
    } else if j == i + 1 {
      ShrinkFirst(m[j], prev[j], prev[j + 1], l, r1);
    } else if j + 1 == i {
      ShrinkSecond(m[j], prev[j], prev[j + 1], l, r0);
    }
  }

  lemma TameIsAligned(m: real, t0: real, t1: real)
    requires Tame(m, t0, t1)
    ensures Aligned(m, t0, t1)
  {
  }

  lemma ShrinkFirst(m: real, t0: real, t1: real, l: real, r: real)
    requires 0.0 <= l <= 1.0 && r == l * t0
    ensures Aligned(m, t0, t1) ==> Aligned(m, r, t1)
    ensures Tame(m, t0, t1) ==> Tame(m, r, t1)
  {
    hide *;
    ShrinkKeeps(m, t0, t1, l, 1.0, r, t1);
  }

  lemma ShrinkSecond(m: real, t0: real, t1: real, l: real, r: real)
    requires 0.0 <= l <= 1.0 && r == l * t1
    ensures Aligned(m, t0, t1) ==> Aligned(m, t0, r)
    ensures Tame(m, t0, t1) ==> Tame(m, t0, r)
  {
    hide *;
    ShrinkKeeps(m, t0, t1, 1.0, l, t0, r);
  }

  lemma PathAt(pts: seq<Point>, hypot: (real, real) -> real, i: nat)
    requires StrictlyIncreasing(pts) && i + 1 < |pts|
    ensures |Path(pts, hypot)| == |pts| - 1
    ensures Path(pts, hypot)[i] == PieceOf(pts[i], pts[i + 1], Tangents(pts, hypot)[i], Tangents(pts, hypot)[i + 1])
  {
    hide PieceOf, Tangents;
  }

  lemma SecantAt(pts: seq<Point>, i: nat)
    requires StrictlyIncreasing(pts) && i + 1 < |pts|
    ensures |Secants(pts)| == |pts| - 1 && Secants(pts)[i] == Secant(pts[i], pts[i + 1])
  {
    hide Secant;
  }

  lemma TangentsAreTame(pts: seq<Point>, hypot: (real, real) -> real, i: nat)
    requires IsHypot(hypot)
    requires StrictlyIncreasing(pts) && i + 1 < |pts|
    ensures Tame(Secant(pts[i], pts[i + 1]), Tangents(pts, hypot)[i], Tangents(pts, hypot)[i + 1])
  {
    SecantAt(pts, i);
    hide Tame, Aligned, InitialTangents, Secant, Secants, Limited, IsHypot;
    var m := Secants(pts);
    var t := InitialTangents(m);
    forall j | 0 <= j < |m| ensures AlignedAt(t, m, j) {
      InitialTangentsAligned(m, j);
    }
    LimitedIsTame(t, m, |m|, hypot);
    assert TameAt(Tangents(pts, hypot), m, i);
  }

  /** Main result: every piece of the path is monotone between its end points, with no overshoot. */
  lemma PathIsMonotone(pts: seq<Point>, hypot: (real, real) -> real, i: nat)
    requires IsHypot(hypot)
    requires StrictlyIncreasing(pts)
    requires i + 1 < |pts|
    ensures |Path(pts, hypot)| == |pts| - 1
    ensures Path(pts, hypot)[i].p0 == pts[i] && Path(pts, hypot)[i].p1 == pts[i + 1]
    ensures MonotonePiece(Path(pts, hypot)[i])
  {
    hide MonotonePiece, Tame, Tangents, Path, IsHypot, Secant;
    PathAt(pts, hypot, i);
    TangentsAreTame(pts, hypot, i);
    TamePieceIsMonotone(pts[i], pts[i + 1], Tangents(pts, hypot)[i], Tangents(pts, hypot)[i + 1]);
  }

  lemma PiecesAreMonotone(pts: seq<Point>, hypot: (real, real) -> real)
    requires IsHypot(hypot) && StrictlyIncreasing(pts)
    ensures forall i :: 0 <= i < |Path(pts, hypot)| ==> MonotonePiece(Path(pts, hypot)[i])
  {
    hide MonotonePiece, IsHypot;
    forall i | 0 <= i < |Path(pts, hypot)| ensures MonotonePiece(Path(pts, hypot)[i]) {
      PathIsMonotone(pts, hypot, i);
    }
  }

  /** Points on one line are joined by that line: all tangents keep the common slope. */
  lemma CollinearPointsStayStraight(pts: seq<Point>, hypot: (real, real) -> real, slope: real)
    requires IsHypot(hypot)
    requires StrictlyIncreasing(pts) && |pts| >= 2
    requires forall i :: 0 <= i < |pts| - 1 ==> Secant(pts[i], pts[i + 1]) == slope
    ensures Tangents(pts, hypot) == seq(|pts|, _ => slope)
  {
    AgreeingTangent(slope, hypot);
    hide Secant, InteriorTangent, LimitPair, InitialTangents, IsHypot;
    var m := Secants(pts);
    var t := seq(|pts|, _ => slope);
    assert m == seq(|pts| - 1, _ => slope);
    UniformSlopes(m, slope);
    assert InitialTangents(m) == t;
    hide Secants;
    UniformTangentsAreKept(t, m, slope, |m|, hypot);
  }

  lemma UniformSlopes(m: seq<real>, slope: real)
    requires |m| >= 1 && m == seq(|m|, _ => slope) && InteriorTangent(slope, slope) == slope
    ensures InitialTangents(m) == seq(|m| + 1, _ => slope)
  {
    hide InteriorTangent;
  }

  lemma AgreeingTangent(m: real, hypot: (real, real) -> real)
    requires IsHypot(hypot)
    ensures InteriorTangent(m, m) == m
    ensures LimitPair(m, m, m, hypot) == (m, m)
  {
    if m != 0.0 {
      AgreeingInterior(m);
      hide InteriorTangent, PulledBack;
      Cancel(1.0, m);
      var h := hypot(1.0, 1.0);
      HypotAtMostThree(h);
      assert hypot(m / m, m / m) == h;
    }
  }

  lemma AgreeingInterior(m: real)
    ensures InteriorTangent(m, m) == m
  {
    if m != 0.0 {
      SquarePositive(m);
      SameSignInterior(m, m);
    }
  }

  lemma SameSignInterior(before: real, after: real)
    requires before * after > 0.0
    ensures InteriorTangent(before, after) == (before + after) / 2.0
  {
  }

  lemma HypotAtMostThree(h: real)
    requires h * h == 2.0
    ensures h <= 3.0
  {
    assert (h - 3.0) * (h + 3.0) == h * h - 9.0;
    if h > 3.0 {
      ProductPositive(h - 3.0, h + 3.0);
    }
  }

  lemma {:induction false} UniformTangentsAreKept(
      t: seq<real>, m: seq<real>, slope: real, k: nat, hypot: (real, real) -> real)
    requires |t| == |m| + 1 && k <= |m|
    requires t == seq(|t|, _ => slope) && m == seq(|m|, _ => slope)
    requires LimitPair(slope, slope, slope, hypot) == (slope, slope)
    ensures Limited(t, m, k, hypot) == t
  {
    hide LimitPair;
    if k > 0 {
      UniformTangentsAreKept(t, m, slope, k - 1, hypot);
      assert t[k - 1] == slope && t[k] == slope && m[k - 1] == slope;
    }
  }

  /** Consecutive pieces leave and enter a shared point in the same direction: the curve has no corner. */
  lemma PathIsSmooth(pts: seq<Point>, hypot: (real, real) -> real, i: nat)
    requires StrictlyIncreasing(pts)
    requires i + 2 < |pts|
    ensures SameDirection(Path(pts, hypot)[i], Path(pts, hypot)[i + 1])
  {
    var t := Tangents(pts, hypot);
    PiecesMeetSmoothly(pts[i], pts[i + 1], pts[i + 2], t[i], t[i + 1], t[i + 2]);
    hide PieceOf, SameDirection;
    assert Path(pts, hypot)[i] == PieceOf(pts[i], pts[i + 1], t[i], t[i + 1]);
  }

  ghost predicate Parallel(u: Point, v: Point) {
    u.y * v.x == v.y * u.x
  }

  ghost predicate SameDirection(before: Piece, after: Piece) {
    && before.p1 == after.p0
    && Parallel(Point(before.p1.x - before.c2.x, before.p1.y - before.c2.y),
                Point(after.c1.x - after.p0.x, after.c1.y - after.p0.y))
  }

  lemma PiecesMeetSmoothly(p: Point, q: Point, r: Point, t0: real, t1: real, t2: real)
    ensures SameDirection(PieceOf(p, q, t0, t1), PieceOf(q, r, t1, t2))
  {
    var before, after := PieceOf(p, q, t0, t1), PieceOf(q, r, t1, t2);
    MultiplesAreParallel(Point(before.p1.x - before.c2.x, before.p1.y - before.c2.y),
                         Point(after.c1.x - after.p0.x, after.c1.y - after.p0.y), t1);
    hide Parallel;
  }

  lemma MultiplesAreParallel(u: Point, v: Point, t: real)
    requires u.y == u.x * t && v.y == v.x * t
    ensures Parallel(u, v)
  {
    CrossProducts(u.x, u.y, v.x, v.y, t);
  }

  lemma CrossProducts(x: real, y: real, x': real, y': real, t: real)
    requires y == x * t && y' == x' * t
    ensures y * x' == y' * x
  {
    calc {
      y * x';
      (x * t) * x';
      (x' * t) * x;
      y' * x;
    }
  }
}
