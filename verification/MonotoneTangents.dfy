/**
 What slopes the curve of public/js/chart.js has at its points: those of the secants' mean, moved no
 further than the limiter has to.
 */
module MonotoneTangents {
  import opened MonotonePath
  import opened RealGeometry

  // ── Before the limiter ────────────────────────────────────────────────────

  /** The point of a parabola at x. */
  function Parabola(a: real, b: real, c: real, x: real): Point {
    Point(x, a * (x * x) + b * x + c)
  }

  lemma ParabolaSecant(a: real, b: real, c: real, x: real, h: real)
    requires h > 0.0
    ensures Secant(Parabola(a, b, c, x), Parabola(a, b, c, x + h)) == a * (2.0 * x + h) + b
  {
    var s := a * (2.0 * x + h) + b;
    var rise := Parabola(a, b, c, x + h).y - Parabola(a, b, c, x).y;
    assert (x + h) * (x + h) == x * x + (2.0 * x + h) * h;
    assert a * ((x + h) * (x + h)) == a * (x * x) + a * ((2.0 * x + h) * h);
    assert a * ((2.0 * x + h) * h) == (a * (2.0 * x + h)) * h;
    assert rise == s * h;
    assert x + h - x == h;
    Cancel(s, h);
  }

  /** On evenly spaced points of a parabola the slope at a point is the parabola's own, unless it turns between the neighbours. */
  lemma ParabolaKeepsItsSlope(a: real, b: real, c: real, x: real, h: real)
    requires h > 0.0
    ensures var before := Secant(Parabola(a, b, c, x - h), Parabola(a, b, c, x));
      var after := Secant(Parabola(a, b, c, x), Parabola(a, b, c, x + h));
      InteriorTangent(before, after) == if before * after > 0.0 then 2.0 * a * x + b else 0.0
  {
    ParabolaSecant(a, b, c, x - h, h);
    ParabolaSecant(a, b, c, x, h);
    assert x - h + h == x;
    var before, after := a * (2.0 * (x - h) + h) + b, a * (2.0 * x + h) + b;
    assert before + after == a * (4.0 * x) + 2.0 * b by {
      assert a * (2.0 * (x - h) + h) == a * (2.0 * x) - a * h;
      assert a * (2.0 * x + h) == a * (2.0 * x) + a * h;
      assert a * (4.0 * x) == a * (2.0 * x) + a * (2.0 * x);
    }
    assert a * (4.0 * x) == 2.0 * (2.0 * a * x);
  }

  /** The slopes at both ends are those of the end segments. */
  lemma EndsKeepTheirSecants(m: seq<real>)
    requires |m| >= 1
    ensures InitialTangents(m)[0] == m[0] && InitialTangents(m)[|m|] == m[|m| - 1]
  {
  }

  // ── The limiter ───────────────────────────────────────────────────────────

  lemma HypotOf(hypot: (real, real) -> real, a: real, b: real) returns (h: real)
    requires IsHypot(hypot)
    ensures h == hypot(a, b) && h >= 0.0 && h * h == a * a + b * b
  {
    h := hypot(a, b);
  }

  lemma BesideThree(h: real)
    requires h >= 0.0
    ensures h > 3.0 <==> h * h > 9.0
  {
    assert (h - 3.0) * (h + 3.0) == h * h - 9.0;
    if h > 3.0 {
      ProductPositive(h - 3.0, h + 3.0);
    } else {
      ShortHypot(h);
    }
  }

  /** What the limiter makes of slopes with given ratios. */
  lemma LimitOfRatios(m: real, t0: real, t1: real, a: real, b: real, hypot: (real, real) -> real)
    requires m != 0.0 && t0 == a * m && t1 == b * m
    ensures var h := hypot(a, b);
      LimitPair(m, t0, t1, hypot) == if h > 3.0 then (PulledBack(a, h, m), PulledBack(b, h, m)) else (t0, t1)
  {
    Cancel(a, m);
    Cancel(b, m);
    hide PulledBack;
  }

  /** A pair of slopes whose ratios lie in the circle of radius 3 stays as it is. */
  lemma InsideIsKept(m: real, t0: real, t1: real, a: real, b: real, hypot: (real, real) -> real)
    requires IsHypot(hypot) && m != 0.0 && t0 == a * m && t1 == b * m && a * a + b * b <= 9.0
    ensures LimitPair(m, t0, t1, hypot) == (t0, t1)
  {
    LimitOfRatios(m, t0, t1, a, b, hypot);
    var h := HypotOf(hypot, a, b);
    hide LimitPair, PulledBack, IsHypot;
    BesideThree(h);
  }

  /** One outside moves straight towards the origin until its ratios are on the circle. */
  lemma OutsideEndsOnCircle(m: real, t0: real, t1: real, a: real, b: real, hypot: (real, real) -> real)
    returns (l: real, r0: real, r1: real)
    requires IsHypot(hypot) && m != 0.0 && t0 == a * m && t1 == b * m && a * a + b * b > 9.0
    ensures 0.0 < l < 1.0
    ensures LimitPair(m, t0, t1, hypot) == (r0, r1) && r0 == (l * a) * m && r1 == (l * b) * m
    ensures (l * a) * (l * a) + (l * b) * (l * b) == 9.0
  {
    LimitOfRatios(m, t0, t1, a, b, hypot);
    var h := HypotOf(hypot, a, b);
    hide LimitPair, PulledBack, IsHypot;
    BesideThree(h);
    l := Reciprocal(h);
    r0 := Rescaled(m, t0, a, h, l);
    r1 := Rescaled(m, t1, b, h, l);
    Regrouped(l, a, m, t0);
    Regrouped(l, b, m, t1);
    OnTheCircle(a, b, h, l);
  }

  lemma Regrouped(l: real, a: real, m: real, t: real)
    requires t == a * m
    ensures l * t == (l * a) * m
  {
  }

  lemma OnTheCircle(a: real, b: real, h: real, l: real)
    requires h * h == a * a + b * b && l * h == 3.0
    ensures (l * a) * (l * a) + (l * b) * (l * b) == 9.0
  {
    var a' := Scaled(a, l);
    var b' := Scaled(b, l);
    assert (l * l) * (h * h) == (l * h) * (l * h);
    assert (l * l) * (a * a) + (l * l) * (b * b) == (l * l) * (a * a + b * b);
  }

  /** The ratios of segment k's slopes to its secant. */
  ghost predicate HasRatios(t: seq<real>, m: seq<real>, k: nat, a: real, b: real)
    requires |t| == |m| + 1 && k < |m|
  {
    t[k] == a * m[k] && t[k + 1] == b * m[k]
  }

  /** Segment k's ratios are those given, scaled down to the circle of radius 3. */
  ghost predicate IsPulledBack(t: seq<real>, m: seq<real>, k: nat, a: real, b: real, l: real)
    requires |t| == |m| + 1 && k < |m|
  {
    0.0 < l < 1.0 && HasRatios(t, m, k, l * a, l * b) && (l * a) * (l * a) + (l * b) * (l * b) == 9.0
  }

  /** The slopes after segment k's turn. */
  ghost function Turned(t: seq<real>, m: seq<real>, k: nat, hypot: (real, real) -> real): (r: seq<real>)
    requires |t| == |m| + 1 && k < |m|
    ensures |r| == |t|
  {
    var pair := LimitPair(m[k], t[k], t[k + 1], hypot);
    t[k := pair.0][k + 1 := pair.1]
  }

  lemma TurnInside(t: seq<real>, m: seq<real>, k: nat, a: real, b: real, hypot: (real, real) -> real)
    requires IsHypot(hypot) && |t| == |m| + 1 && k < |m| && m[k] != 0.0
    requires HasRatios(t, m, k, a, b) && a * a + b * b <= 9.0
    ensures Turned(t, m, k, hypot) == t
  {
    InsideIsKept(m[k], t[k], t[k + 1], a, b, hypot);
    hide LimitPair, IsHypot, HasRatios;
    assert t[k := t[k]][k + 1 := t[k + 1]] == t;
  }

  lemma TurnOutside(t: seq<real>, m: seq<real>, k: nat, a: real, b: real, hypot: (real, real) -> real) returns (l: real)
    requires IsHypot(hypot) && |t| == |m| + 1 && k < |m| && m[k] != 0.0
    requires HasRatios(t, m, k, a, b) && a * a + b * b > 9.0
    ensures IsPulledBack(Turned(t, m, k, hypot), m, k, a, b, l)
  {
    var r0, r1;
    l, r0, r1 := OutsideEndsOnCircle(m[k], t[k], t[k + 1], a, b, hypot);
    hide LimitPair, IsHypot;
  }

  /**
   The turn of segment k: no slope but its own two changes; a level segment gets level slopes; one
   whose ratios lie in the circle of radius 3 keeps both; any other ends with its ratios on the
   circle, both scaled down by one factor.
   */
  lemma TurnOfSegment(t: seq<real>, m: seq<real>, k: nat, a: real, b: real, hypot: (real, real) -> real)
    requires IsHypot(hypot) && |t| == |m| + 1 && k < |m|
    requires HasRatios(Limited(t, m, k, hypot), m, k, a, b)
    ensures var before, after := Limited(t, m, k, hypot), Limited(t, m, k + 1, hypot);
      && (forall j :: 0 <= j < |t| && j != k && j != k + 1 ==> after[j] == before[j])
      && (m[k] == 0.0 ==> after[k] == after[k + 1] == 0.0)
      && (m[k] != 0.0 && a * a + b * b <= 9.0 ==> after == before)
      && (m[k] != 0.0 && a * a + b * b > 9.0 ==> exists l :: IsPulledBack(after, m, k, a, b, l))
  {
    var before := Limited(t, m, k, hypot);
    assert Limited(t, m, k + 1, hypot) == Turned(before, m, k, hypot);
    hide Limited, IsHypot, HasRatios, IsPulledBack;
    if m[k] != 0.0 {
      hide LimitPair;
      if a * a + b * b <= 9.0 {
        TurnInside(before, m, k, a, b, hypot);
      } else {
        var l := TurnOutside(before, m, k, a, b, hypot);
      }
    }
  }

  // ── When the limiter has nothing to do ────────────────────────────────────

  lemma TamePairIsKept(m: real, t0: real, t1: real, hypot: (real, real) -> real)
    requires IsHypot(hypot) && Tame(m, t0, t1)
    ensures LimitPair(m, t0, t1, hypot) == (t0, t1)
  {
    var a, b := TameRatios(m, t0, t1);
    if m != 0.0 {
      InsideIsKept(m, t0, t1, a, b, hypot);
    }
  }

  lemma {:induction false} TameIsKept(t: seq<real>, m: seq<real>, k: nat, hypot: (real, real) -> real)
    requires IsHypot(hypot) && |t| == |m| + 1 && k <= |m|
    requires forall j :: 0 <= j < |m| ==> TameAt(t, m, j)
    ensures Limited(t, m, k, hypot) == t
  {
    hide Tame, LimitPair, IsHypot;
    if k > 0 {
      TameIsKept(t, m, k - 1, hypot);
      assert TameAt(t, m, k - 1);
      TamePairIsKept(m[k - 1], t[k - 1], t[k], hypot);
    }
  }

  /** The curve has the mean slopes, and the secants' own at both ends, exactly if they are all within the circle. */
  lemma SlopesAreKeptExactly(pts: seq<Point>, hypot: (real, real) -> real)
    requires IsHypot(hypot) && StrictlyIncreasing(pts) && |pts| >= 2
    ensures var m := Secants(pts); var t := InitialTangents(m);
      && (Tangents(pts, hypot) == t <==> forall j :: 0 <= j < |m| ==> TameAt(t, m, j))
      && t[0] == m[0] && t[|m|] == m[|m| - 1]
  {
    var m := Secants(pts);
    var t := InitialTangents(m);
    EndsKeepTheirSecants(m);
    forall j | 0 <= j < |m| ensures AlignedAt(t, m, j) {
      InitialTangentsAligned(m, j);
    }
    hide Tame, Aligned, InitialTangents, Secants, LimitPair;
    LimitedIsTame(t, m, |m|, hypot);
    if forall j :: 0 <= j < |m| ==> TameAt(t, m, j) {
      TameIsKept(t, m, |m|, hypot);
    }
  }
}
