/**
 What the choices of the clusterer (public/utils.js, assignGraphClusters) come to, said of the numbers
 of uses, the sizes and the weights alone.
 */
module ClusterChoices {
  import opened ClusterLaws
  import opened ClusterRules
  import opened JsText
  import opened Options
  import opened RealGeometry

  // ── Nearness to the square root of N ──────────────────────────────────────

  lemma FractionOrder(a: real, b: real, c: real, d: real)
    requires b > 0.0 && d > 0.0
    ensures a / b < c / d <==> a * d < c * b
    ensures a / b == c / d <==> a * d == c * b
  {
    var x, y := a / b, c / d;
    assert x * b == a && y * d == c;
    var bd := b * d;
    ProductPositive(b, d);
    assert a * d == x * bd && c * b == y * bd by {
      assert (x * b) * d == x * (b * d);
      assert (y * d) * b == y * (b * d);
    }
    ScaledStrictly(bd, x, y);
    ScaledStrictly(bd, y, x);
  }

  lemma ScaledStrictly(k: real, x: real, y: real)
    requires k > 0.0
    ensures x < y ==> x * k < y * k
    ensures x == y ==> x * k == y * k
  {
    if x < y {
      ProductPositive(y - x, k);
      assert (y - x) * k == y * k - x * k;
    }
  }

  lemma IntegerFractionOrder(a: nat, b: nat, c: nat, d: nat)
    requires b > 0 && d > 0
    ensures a as real / b as real < c as real / d as real <==> a * d < c * b
    ensures a as real / b as real == c as real / d as real <==> a * d == c * b
  {
    FractionOrder(a as real, b as real, c as real, d as real);
    assert (a * d) as real == a as real * d as real && (c * b) as real == c as real * b as real;
  }

  lemma SquaresGrow(a: nat, b: nat)
    ensures a < b ==> a * a < b * b
    ensures a * a < b * b ==> a < b
    ensures a * a == b * b ==> a == b
  {
    assert b * b - a * a == (b - a) * (b + a);
    if a < b {
      assert (b - a) * (b + a) > 0;
    } else if a > b {
      assert (a - b) * (a + b) > 0 && a * a - b * b == (a - b) * (a + b);
    }
  }

  lemma Square(a: nat, b: nat)
    ensures (a * b) * (a * b) == (a * a) * (b * b)
  {
    calc {
      (a * b) * (a * b);
      a * (b * (a * b));
      a * (a * (b * b));
      (a * a) * (b * b);
    }
  }

  /**
   Of two numbers of uses the smaller is nearer to the square root of n, in logarithms, exactly if
   their product is more than n; and they are equally near exactly if it is n.
   */
  lemma NearnessLaw(d: nat, e: nat, n: nat)
    requires 0 < d < e && n > 0
    ensures Distance(d, n) < Distance(e, n) <==> d * e > n
    ensures Distance(d, n) == Distance(e, n) <==> d * e == n
  {
    SquaresGrow(d, e);
    ProductBetween(d, e);
    if d * d >= n {
      AboveTheRoot(d, n);
      AboveTheRoot(e, n);
      hide Distance;
      IntegerFractionOrder(d * d, n, e * e, n);
      TimesOrder(d * d, e * e, n);
    } else if e * e < n {
      BelowTheRoot(d, n);
      BelowTheRoot(e, n);
      hide Distance;
      IntegerFractionOrder(n, d * d, n, e * e);
      IntegerFractionOrder(n, e * e, n, d * d);
      TimesOrder(d * d, e * e, n);
    } else {
      BelowTheRoot(d, n);
      AboveTheRoot(e, n);
      hide Distance;
      IntegerFractionOrder(n, d * d, e * e, n);
      Square(d, e);
      SquaresGrow(n, d * e);
      SquaresGrow(d * e, n);
    }
  }

  lemma AboveTheRoot(d: nat, n: nat)
    requires d > 0 && n > 0 && d * d >= n
    ensures Distance(d, n) == (d * d) as real / n as real
  {
  }

  lemma BelowTheRoot(d: nat, n: nat)
    requires d > 0 && n > 0 && d * d < n
    ensures d * d > 0 && Distance(d, n) == n as real / (d * d) as real
  {
  }

  lemma ProductBetween(d: nat, e: nat)
    requires 0 < d < e
    ensures 0 < d * d < d * e < e * e
  {
    assert d * e - d * d == d * (e - d) && e * e - d * e == e * (e - d);
  }

  lemma TimesOrder(a: nat, b: nat, n: nat)
    requires a < b && n > 0
    ensures a * n < b * n && n * a < n * b
  {
  }

  /** On one side of the square root the number farther out is farther away. */
  lemma OneSide(d: nat, e: nat, n: nat)
    requires 0 < d < e && n > 0
    ensures d * d >= n ==> Distance(d, n) < Distance(e, n)
    ensures e * e <= n ==> Distance(e, n) < Distance(d, n)
    ensures Distance(d, n) == Distance(e, n) <==> d * e == n
  {
    NearnessLaw(d, e, n);
    hide Distance;
    ProductBetween(d, e);
  }

  lemma UsesArePositive(all: set<Memory>, m: Memory, t: string)
    requires m in all && t in m.tags
    ensures Uses(all, t) >= 1 && |all| >= 1
  {
    var users := set k | k in all && t in k.tags;
    assert m in users;
  }

  /** One tag is the better label: nearer to the square root of all nodes, or as near and first by name. */
  ghost predicate IsBetter(all: set<Memory>, c: string, u: string) {
    var d, e, n := Uses(all, c), Uses(all, u), |all|;
    && (d < e ==> d * e >= n) && (d > e ==> d * e <= n)
    && (d == e || d * e == n ==> Less(c, u))
  }

  lemma NearerIsBetter(all: set<Memory>, m: Memory, c: string, u: string)
    requires m in all && c in m.tags && u in m.tags && Nearer(Uses(all, c), c, Uses(all, u), u, |all|)
    ensures IsBetter(all, c, u)
  {
    UsesArePositive(all, m, c);
    UsesArePositive(all, m, u);
    var d, e, n := Uses(all, c), Uses(all, u), |all|;
    hide Uses, Distance, Less;
    if d < e {
      NearnessLaw(d, e, n);
    } else if e < d {
      NearnessLaw(e, d, n);
    }
  }

  ghost predicate IsSharedTopic(all: set<Memory>, m: Memory, t: string) {
    t in m.tags && !IsAxis(t) && Uses(all, t) >= 2
  }

  /** What a node's tags offer: the shared topic tags if there is one, and otherwise the shared tags. */
  ghost predicate IsOnOffer(all: set<Memory>, m: Memory, t: string) {
    t in m.tags && Uses(all, t) >= 2 && (IsAxis(t) ==> forall u :: !IsSharedTopic(all, m, u))
  }

  lemma OfferIsTier(all: set<Memory>, m: Memory, t: string)
    ensures IsOnOffer(all, m, t) <==> Eligible(all, m, !HasEligible(all, m, false), t)
  {
    hide IsAxis, Uses;
    if HasEligible(all, m, false) {
      var u :| Eligible(all, m, false, u);
      assert IsSharedTopic(all, m, u);
    } else {
      forall u ensures !IsSharedTopic(all, m, u) {
        assert !Eligible(all, m, false, u);
      }
    }
  }

  lemma PickOnOffer(all: set<Memory>, m: Memory, c: string, t: string)
    requires m in all && m.project.None? && IsPick(all, m, c) && IsOnOffer(all, m, t)
    ensures IsOnOffer(all, m, c)
    ensures forall u :: IsOnOffer(all, m, u) && u != c ==> IsBetter(all, c, u)
  {
    var axis := !HasEligible(all, m, false);
    OfferIsTier(all, m, t);
    OfferIsTier(all, m, c);
    assert HasEligible(all, m, axis);
    assert IsNearest(all, m, axis, c);
    hide IsPick, IsOnOffer, HasEligible, IsBetter, Nearer, Uses, IsAxis;
    forall u | IsOnOffer(all, m, u) && u != c ensures IsBetter(all, c, u) {
      OfferIsTier(all, m, u);
      NearerIsBetter(all, m, c, u);
    }
  }

  lemma NothingOnOffer(all: set<Memory>, m: Memory, c: string)
    requires m.project.None? && IsPick(all, m, c) && forall t :: !IsOnOffer(all, m, t)
    ensures c == LOOSE
  {
    var axis := !HasEligible(all, m, false);
    forall t ensures !Eligible(all, m, axis, t) {
      OfferIsTier(all, m, t);
    }
    hide Eligible, IsNearest, IsOnOffer;
  }

  /**
   A node without a project is picked for a tag on offer that is better than every other tag on
   offer; if none is on offer it is loose.
   */
  lemma PickIsNearest(all: set<Memory>, edges: seq<Edge>, o: Outcome, m: Memory)
    requires Clustered(all, edges, o) && m in all && m.project.None?
    ensures var c := ClusterOf(o.picks, m.id);
      if exists t :: IsOnOffer(all, m, t) then IsOnOffer(all, m, c) && forall u :: IsOnOffer(all, m, u) && u != c ==> IsBetter(all, c, u)
      else c == LOOSE
  {
    var c := ClusterOf(o.picks, m.id);
    assert IsPick(all, m, c) by { hide IsPick, AreFolds, AreRounds, AreSubs; }
    hide AreFolds, AreRounds, AreSubs, ArePicks, IsPick, IsOnOffer, IsBetter;
    if exists t :: IsOnOffer(all, m, t) {
      var t :| IsOnOffer(all, m, t);
      PickOnOffer(all, m, c, t);
    } else {
      NothingOnOffer(all, m, c);
    }
  }

  // ── The fold, the rounds and the sub-topics ───────────────────────────────

  /** The least size of a cluster: one in a hundred of all nodes, to the nearest whole number, and at least three. */
  lemma MinOuterIsOnePercent(n: nat)
    ensures MinOuter(n) >= 3 && (n < 350 ==> MinOuter(n) == 3)
    ensures n >= 350 ==> -50 <= n - 100 * MinOuter(n) < 50
  {
  }

  /**
   A node leaves its picked cluster only if that is too small; it goes where at least as many nodes
   were picked for as for any other of its tags, and there were enough of them; it becomes loose
   only if none of its tags had enough.
   */
  lemma FoldGoesToLargest(all: set<Memory>, edges: seq<Edge>, o: Outcome, m: Memory)
    requires ProperGraph(all) && Clustered(all, edges, o) && m in all && ClusterOf(o.folded, m.id) != ClusterOf(o.picks, m.id)
    ensures var p, c := ClusterOf(o.picks, m.id), ClusterOf(o.folded, m.id);
      && p != LOOSE && m.project.None? && Size(all, o.picks, p) < MinOuter(|all|)
      && (c != LOOSE ==> c in m.tags && Size(all, o.picks, c) >= MinOuter(|all|))
      && forall t :: t in m.tags && t != p && Size(all, o.picks, t) >= MinOuter(|all|) ==>
           c != LOOSE && Size(all, o.picks, t) <= Size(all, o.picks, c)
  {
    var p, c := ClusterOf(o.picks, m.id), ClusterOf(o.folded, m.id);
    assert IsFold(all, o.picks, m, c) by { hide IsFold, ArePicks, AreRounds, AreSubs; }
    assert LOOSE !in m.tags;
    hide ArePicks, AreFolds, AreRounds, AreSubs, Size, MinOuter, ProperGraph;
    FoldedToLargest(all, o.picks, m, c);
  }

  lemma FoldedToLargest(all: set<Memory>, picks: map<string, string>, m: Memory, c: string)
    requires IsFold(all, picks, m, c) && LOOSE !in m.tags && c != ClusterOf(picks, m.id)
    ensures var p := ClusterOf(picks, m.id);
      && p != LOOSE && m.project.None? && Size(all, picks, p) < MinOuter(|all|)
      && (c != LOOSE ==> c in m.tags && Size(all, picks, c) >= MinOuter(|all|))
      && forall t :: t in m.tags && t != p && Size(all, picks, t) >= MinOuter(|all|) ==> c != LOOSE && Size(all, picks, t) <= Size(all, picks, c)
  {
    var p := ClusterOf(picks, m.id);
    hide Size, MinOuter, ClusterOf;
    forall t | t in m.tags && t != p && Size(all, picks, t) >= MinOuter(|all|) ensures c != LOOSE && Size(all, picks, t) <= Size(all, picks, c) {
      assert IsRefuge(all, picks, m, t);
      var k: nat :| k < |m.tags| && IsLargest(all, picks, m, k) && c == m.tags[k];
      var j :| 0 <= j < |m.tags| && m.tags[j] == t;
    }
  }

  lemma AdoptedFrom(edges: seq<Edge>, before: map<string, string>, id: string, c: string)
    requires IsAdopted(edges, before, id, c) && ClusterOf(before, id) == LOOSE && c != LOOSE
    ensures IsOffered(edges, before, id, c)
    ensures forall d :: IsOffered(edges, before, id, d) ==>
      Weight(edges, before, id, d) <= Weight(edges, before, id, c) && (d != c && Weight(edges, before, id, d) == Weight(edges, before, id, c) ==> Less(c, d))
  {
    hide Weight, IsOffered, ClusterOf;
  }

  /** A node placed in a round goes where its neighbours pull most, and of equal pulls to the first by name. */
  lemma PlacedWherePulled(all: set<Memory>, edges: seq<Edge>, before: map<string, string>, after: map<string, string>, m: Memory)
    requires IsRound(all, edges, before, after) && m in all && ClusterOf(before, m.id) == LOOSE && ClusterOf(after, m.id) != LOOSE
    ensures var c := ClusterOf(after, m.id);
      && IsOffered(edges, before, m.id, c)
      && forall d :: IsOffered(edges, before, m.id, d) ==>
           && Weight(edges, before, m.id, d) <= Weight(edges, before, m.id, c)
           && (d != c && Weight(edges, before, m.id, d) == Weight(edges, before, m.id, c) ==> Less(c, d))
  {
    hide Weight, IsOffered;
    AdoptedFrom(edges, before, m.id, ClusterOf(after, m.id));
  }

  /** One neighbour pulls to its cluster with the weight of its edge, 1 if that is missing or zero, and to no other. */
  lemma OneEdgePulls(e: Edge, clusters: map<string, string>, id: string, other: string, c: string)
    requires id != other && Joins(e, id, other)
    ensures Weight([e], clusters, id, c) == if ClusterOf(clusters, other) != c then 0.0
      else if e.weight == None || e.weight == Some(0.0) then 1.0 else e.weight.value
  {
    assert [e][..0] == [];
    assert Weight([], clusters, id, c) == 0.0;
  }

  /** How many nodes outside a cluster carry the tag. */
  function UsesOutside(all: set<Memory>, clusters: map<string, string>, c: string, t: string): nat {
    |set m | m in all && ClusterOf(clusters, m.id) != c && t in m.tags|
  }

  /** The tag is at home in the node's cluster: others there carry it, and no more nodes elsewhere than there. */
  predicate IsAtHome(all: set<Memory>, clusters: map<string, string>, m: Memory, t: string) {
    var c := ClusterOf(clusters, m.id);
    t in m.tags && t != c && UsesWithin(all, clusters, c, t) > 1 && UsesOutside(all, clusters, c, t) <= UsesWithin(all, clusters, c, t)
  }

  lemma InsideAndOutside(all: set<Memory>, clusters: map<string, string>, c: string, t: string)
    ensures Uses(all, t) == UsesWithin(all, clusters, c, t) + UsesOutside(all, clusters, c, t)
  {
    var inside := set m | m in all && ClusterOf(clusters, m.id) == c && t in m.tags;
    var outside := set m | m in all && ClusterOf(clusters, m.id) != c && t in m.tags;
    var users := set m | m in all && t in m.tags;
    hide ClusterOf;
    assert users == inside + outside && inside !! outside;
  }

  lemma SharedIsAtHome(all: set<Memory>, clusters: map<string, string>, m: Memory, t: string)
    ensures IsSubTopic(all, clusters, m, t) <==> IsAtHome(all, clusters, m, t)
  {
    InsideAndOutside(all, clusters, ClusterOf(clusters, m.id), t);
    hide UsesWithin, UsesOutside, Uses;
  }

  /** A node in a cluster has a sub-topic if and only if one of its tags is at home there; what is loose has none. */
  lemma SubTopicExactly(all: set<Memory>, edges: seq<Edge>, o: Outcome, m: Memory)
    requires Clustered(all, edges, o) && m in all
    ensures o.subs[m.id].Some? <==> ClusterOf(o.clusters, m.id) != LOOSE && exists t :: IsAtHome(all, o.clusters, m, t)
    ensures o.subs[m.id].Some? ==> IsAtHome(all, o.clusters, m, o.subs[m.id].value)
  {
    assert IsSub(all, o.clusters, m, o.subs[m.id]) by { hide IsSub, ArePicks, AreFolds, AreRounds; }
    hide ArePicks, AreFolds, AreRounds, AreSubs, IsSubTopic, IsAtHome;
    forall t ensures IsSubTopic(all, o.clusters, m, t) <==> IsAtHome(all, o.clusters, m, t) {
      SharedIsAtHome(all, o.clusters, m, t);
    }
    if exists t :: IsAtHome(all, o.clusters, m, t) {
      var t :| IsAtHome(all, o.clusters, m, t);
      assert IsSubTopic(all, o.clusters, m, t);
    }
  }

  /**
   No tag at home in the node's cluster is used more there than the node's sub-topic; of those used
   as much there none is used less in all, and of those none comes first by name.
   */
  lemma SubTopicIsCommonest(all: set<Memory>, edges: seq<Edge>, o: Outcome, m: Memory, t: string)
    requires Clustered(all, edges, o) && m in all && ClusterOf(o.clusters, m.id) != LOOSE
    requires IsAtHome(all, o.clusters, m, t)
    ensures o.subs[m.id].Some?
    ensures var c, sub := ClusterOf(o.clusters, m.id), o.subs[m.id].value;
      && UsesWithin(all, o.clusters, c, t) <= UsesWithin(all, o.clusters, c, sub)
      && (UsesWithin(all, o.clusters, c, t) == UsesWithin(all, o.clusters, c, sub) ==>
            Uses(all, sub) < Uses(all, t) || (Uses(all, sub) == Uses(all, t) && (sub == t || Less(sub, t))))
  {
    assert IsSub(all, o.clusters, m, o.subs[m.id]) by { hide IsSub, ArePicks, AreFolds, AreRounds; }
    SharedIsAtHome(all, o.clusters, m, t);
    hide ArePicks, AreFolds, AreRounds, AreSubs, UsesWithin, Uses, IsAtHome, IsSubTopic;
  }
}
