/** What holds of every outcome of grouping the graph's memories (public/utils.js, assignGraphClusters). */
module ClusterLaws {
  import opened Options
  import opened JsText
  import opened ClusterRules

  // ── The order of nodes and edges does not matter ──────────────────────────

  lemma PickIsUnique(all: set<Memory>, m: Memory, c: string, d: string)
    requires IsPick(all, m, c) && IsPick(all, m, d)
    ensures c == d
  {
    hide Distance, Uses, IsAxis, Less;
    if c != d && m.project.None? && (HasEligible(all, m, false) || HasEligible(all, m, true)) {
      assert Nearer(Uses(all, c), c, Uses(all, d), d, |all|) && Nearer(Uses(all, d), d, Uses(all, c), c, |all|);
      LessIsTotal(c, d);
    }
  }

  lemma FoldIsUnique(all: set<Memory>, picks: map<string, string>, m: Memory, c: string, d: string)
    requires IsFold(all, picks, m, c) && IsFold(all, picks, m, d)
    ensures c == d
  {
    hide Size, IsSettled;
    if !IsSettled(all, picks, m) && exists t :: IsRefuge(all, picks, m, t) {
      var k: nat :| k < |m.tags| && IsLargest(all, picks, m, k) && c == m.tags[k];
      var j: nat :| j < |m.tags| && IsLargest(all, picks, m, j) && d == m.tags[j];
      hide IsRefuge;
      assert k == j;
    }
  }

  lemma AdoptedIsUnique(edges: seq<Edge>, clusters: map<string, string>, id: string, c: string, d: string)
    requires IsAdopted(edges, clusters, id, c) && IsAdopted(edges, clusters, id, d)
    ensures c == d
  {
    hide Weight, IsOffered;
    if c != d {
      LessIsTotal(c, d);
    }
  }

  lemma SubIsUnique(all: set<Memory>, clusters: map<string, string>, m: Memory, s: Option<string>, r: Option<string>)
    requires IsSub(all, clusters, m, s) && IsSub(all, clusters, m, r)
    ensures s == r
  {
    hide UsesWithin, Uses, IsSubTopic;
    if s != r {
      LessIsTotal(s.value, r.value);
    }
  }

  lemma {:induction false} WeightOfConcat(a: seq<Edge>, b: seq<Edge>, clusters: map<string, string>, id: string, c: string)
    ensures Weight(a + b, clusters, id, c) == Weight(a, clusters, id, c) + Weight(b, clusters, id, c)
  {
    hide Pull;
    if b == [] {
      assert a + b == a;
    } else {
      var last := |b| - 1;
      assert (a + b)[..|a + b| - 1] == a + b[..last];
      WeightOfConcat(a, b[..last], clusters, id, c);
    }
  }

  lemma WithoutOne<T>(s: seq<T>, k: nat)
    requires k < |s|
    ensures multiset(s[..k] + s[k + 1..]) == multiset(s) - multiset{s[k]}
  {
    assert s == s[..k] + [s[k]] + s[k + 1..];
  }

  lemma WeightWithoutOne(edges: seq<Edge>, k: nat, clusters: map<string, string>, id: string, c: string)
    requires k < |edges|
    ensures Weight(edges, clusters, id, c) == Weight(edges[..k] + edges[k + 1..], clusters, id, c) + Pull(edges[k], clusters, id, c)
  {
    hide Pull;
    var e := edges[k];
    assert edges == edges[..k] + [e] + edges[k + 1..];
    WeightOfConcat(edges[..k], edges[k + 1..], clusters, id, c);
    WeightOfConcat(edges[..k] + [e], edges[k + 1..], clusters, id, c);
    assert (edges[..k] + [e])[..k] == edges[..k];
  }

  lemma {:induction false} WeightIgnoresOrder(a: seq<Edge>, b: seq<Edge>, clusters: map<string, string>, id: string, c: string)
    requires multiset(a) == multiset(b)
    ensures Weight(a, clusters, id, c) == Weight(b, clusters, id, c)
    decreases |a|
  {
    if a == [] {
      assert |multiset(b)| == 0;
    } else {
      var last := |a| - 1;
      assert a[last] in multiset(b);
      var k :| 0 <= k < |b| && b[k] == a[last];
      assert multiset(a[..last]) == multiset(b[..k] + b[k + 1..]) by {
        WithoutOne(a, last);
        WithoutOne(b, k);
        assert a[..last] + a[last + 1..] == a[..last];
      }
      hide Pull;
      WeightIgnoresOrder(a[..last], b[..k] + b[k + 1..], clusters, id, c);
      WeightWithoutOne(b, k, clusters, id, c);
    }
  }

  lemma OffersIgnoreOrder(a: seq<Edge>, b: seq<Edge>, clusters: map<string, string>, id: string, c: string)
    requires multiset(a) == multiset(b) && IsOffered(a, clusters, id, c)
    ensures IsOffered(b, clusters, id, c)
  {
    hide Joins;
    var other :| Adjacent(a, id, other) && ClusterOf(clusters, other) == c;
    var e :| e in a && Joins(e, id, other);
    assert e in multiset(b);
    assert Adjacent(b, id, other);
  }

  lemma AdoptionIgnoresOrder(a: seq<Edge>, b: seq<Edge>, clusters: map<string, string>, id: string, c: string)
    requires multiset(a) == multiset(b) && IsAdopted(a, clusters, id, c)
    ensures IsAdopted(b, clusters, id, c)
  {
    forall d ensures IsOffered(a, clusters, id, d) <==> IsOffered(b, clusters, id, d) {
      if IsOffered(a, clusters, id, d) { OffersIgnoreOrder(a, b, clusters, id, d); }
      if IsOffered(b, clusters, id, d) { OffersIgnoreOrder(b, a, clusters, id, d); }
    }
    forall d ensures Weight(a, clusters, id, d) == Weight(b, clusters, id, d) {
      WeightIgnoresOrder(a, b, clusters, id, d);
    }
    hide IsOffered, Weight;
  }

  lemma SameMaps<V>(all: set<Memory>, a: map<string, V>, b: map<string, V>)
    requires a.Keys == b.Keys == Ids(all)
    requires forall m :: m in all ==> a[m.id] == b[m.id]
    ensures a == b
  {
  }

  lemma PicksAreUnique(all: set<Memory>, a: map<string, string>, b: map<string, string>)
    requires ArePicks(all, a) && ArePicks(all, b)
    ensures a == b
  {
    hide IsPick;
    forall m | m in all ensures a[m.id] == b[m.id] {
      PickIsUnique(all, m, ClusterOf(a, m.id), ClusterOf(b, m.id));
    }
    SameMaps(all, a, b);
  }

  lemma FoldsAreUnique(all: set<Memory>, picks: map<string, string>, a: map<string, string>, b: map<string, string>)
    requires AreFolds(all, picks, a) && AreFolds(all, picks, b)
    ensures a == b
  {
    hide IsFold;
    forall m | m in all ensures a[m.id] == b[m.id] {
      FoldIsUnique(all, picks, m, ClusterOf(a, m.id), ClusterOf(b, m.id));
    }
    SameMaps(all, a, b);
  }

  lemma RoundIsUnique(all: set<Memory>, e: seq<Edge>, f: seq<Edge>, before: map<string, string>, a: map<string, string>, b: map<string, string>)
    requires multiset(e) == multiset(f) && IsRound(all, e, before, a) && IsRound(all, f, before, b)
    ensures a == b
  {
    hide IsAdopted;
    forall m | m in all ensures a[m.id] == b[m.id] {
      AdoptionIgnoresOrder(e, f, before, m.id, ClusterOf(a, m.id));
      AdoptedIsUnique(f, before, m.id, ClusterOf(a, m.id), ClusterOf(b, m.id));
    }
    SameMaps(all, a, b);
  }

  lemma {:induction false} RoundsAreUnique(all: set<Memory>, e: seq<Edge>, f: seq<Edge>, first: map<string, string>, k: nat, a: map<string, string>, b: map<string, string>)
    requires multiset(e) == multiset(f) && AreRounds(all, e, first, k, a) && AreRounds(all, f, first, k, b)
    ensures a == b
  {
    hide IsRound;
    if k > 0 {
      var p :| AreRounds(all, e, first, k - 1, p) && IsRound(all, e, p, a);
      var q :| AreRounds(all, f, first, k - 1, q) && IsRound(all, f, q, b);
      RoundsAreUnique(all, e, f, first, k - 1, p, q);
      RoundIsUnique(all, e, f, p, a, b);
    }
  }

  lemma SubsAreUnique(all: set<Memory>, clusters: map<string, string>, a: map<string, Option<string>>, b: map<string, Option<string>>)
    requires AreSubs(all, clusters, a) && AreSubs(all, clusters, b)
    ensures a == b
  {
    hide IsSub;
    forall m | m in all ensures a[m.id] == b[m.id] {
      SubIsUnique(all, clusters, m, a[m.id], b[m.id]);
    }
    SameMaps(all, a, b);
  }

  /** Whatever order the nodes and the edges arrive in, every node gets the same cluster and the same sub-topic. */
  lemma OrderDoesNotMatter(all: set<Memory>, e: seq<Edge>, f: seq<Edge>, o: Outcome, r: Outcome)
    requires multiset(e) == multiset(f) && Clustered(all, e, o) && Clustered(all, f, r)
    ensures o == r
  {
    hide ArePicks, AreFolds, AreRounds, AreSubs;
    PicksAreUnique(all, o.picks, r.picks);
    FoldsAreUnique(all, o.picks, o.folded, r.folded);
    RoundsAreUnique(all, e, f, o.folded, ROUNDS, o.clusters, r.clusters);
    SubsAreUnique(all, o.clusters, o.subs, r.subs);
  }

  // ── The rounds are a search by distance ───────────────────────────────────

  /** Neighbouring nodes of the graph, one after the other. */
  ghost predicate IsChain(all: set<Memory>, edges: seq<Edge>, chain: seq<string>) {
    && chain != [] && (forall i :: 0 <= i < |chain| ==> chain[i] in Ids(all))
    && forall i :: 0 <= i < |chain| - 1 ==> Adjacent(edges, chain[i], chain[i + 1])
  }

  /** A chain from the node to a placed one. */
  ghost predicate Reaches(all: set<Memory>, edges: seq<Edge>, first: map<string, string>, id: string, chain: seq<string>) {
    IsChain(all, edges, chain) && chain[0] == id && ClusterOf(first, chain[|chain| - 1]) != LOOSE
  }

  /** Some placed node is at most k edges away. */
  ghost predicate IsWithin(all: set<Memory>, edges: seq<Edge>, first: map<string, string>, id: string, k: int) {
    exists chain :: Reaches(all, edges, first, id, chain) && |chain| - 1 <= k
  }

  lemma RoundKeepsPlaced(all: set<Memory>, edges: seq<Edge>, before: map<string, string>, after: map<string, string>, id: string)
    requires IsRound(all, edges, before, after) && id in Ids(all) && ClusterOf(before, id) != LOOSE
    ensures ClusterOf(after, id) == ClusterOf(before, id)
  {
    var m :| m in all && m.id == id;
    hide IsHeaviest, IsOffered;
    assert IsAdopted(edges, before, m.id, ClusterOf(after, m.id));
  }

  /** A node that has a cluster keeps it through all the rounds. */
  lemma {:induction false} PlacedStays(all: set<Memory>, edges: seq<Edge>, first: map<string, string>, k: nat, last: map<string, string>, id: string)
    requires AreRounds(all, edges, first, k, last) && id in Ids(all) && ClusterOf(first, id) != LOOSE
    ensures ClusterOf(last, id) == ClusterOf(first, id)
  {
    hide IsRound;
    if k > 0 {
      var before :| AreRounds(all, edges, first, k - 1, before) && IsRound(all, edges, before, last);
      PlacedStays(all, edges, first, k - 1, before, id);
      RoundKeepsPlaced(all, edges, before, last, id);
    }
  }

  lemma RoundReaches(all: set<Memory>, edges: seq<Edge>, before: map<string, string>, after: map<string, string>, id: string)
    requires IsRound(all, edges, before, after) && id in Ids(all)
    ensures ClusterOf(after, id) != LOOSE <==>
      ClusterOf(before, id) != LOOSE || exists other :: Adjacent(edges, id, other) && ClusterOf(before, other) != LOOSE
  {
    var m :| m in all && m.id == id;
    hide Weight, Adjacent, Less;
    assert IsAdopted(edges, before, id, ClusterOf(after, id));
    if ClusterOf(before, id) == LOOSE && exists other :: Adjacent(edges, id, other) && ClusterOf(before, other) != LOOSE {
      var other :| Adjacent(edges, id, other) && ClusterOf(before, other) != LOOSE;
      assert IsOffered(edges, before, id, ClusterOf(before, other));
    }
  }

  lemma ChainGrows(all: set<Memory>, edges: seq<Edge>, first: map<string, string>, id: string, other: string, k: nat)
    requires id in Ids(all) && Adjacent(edges, id, other) && IsWithin(all, edges, first, other, k)
    ensures IsWithin(all, edges, first, id, k + 1)
  {
    hide Adjacent, Ids;
    var chain :| Reaches(all, edges, first, other, chain) && |chain| - 1 <= k;
    assert Reaches(all, edges, first, id, [id] + chain);
  }

  /** After k rounds exactly the nodes at most k edges away from a placed one are placed. */
  lemma {:induction false} PlacedExactlyWithin(all: set<Memory>, edges: seq<Edge>, first: map<string, string>, k: nat, last: map<string, string>, id: string)
    requires first.Keys == Ids(all) && id in Ids(all) && AreRounds(all, edges, first, k, last)
    ensures ClusterOf(last, id) != LOOSE <==> IsWithin(all, edges, first, id, k)
  {
    if ClusterOf(last, id) != LOOSE {
      PlacedIsWithin(all, edges, first, k, last, id);
    }
    if IsWithin(all, edges, first, id, k) {
      var chain :| Reaches(all, edges, first, id, chain) && |chain| - 1 <= k;
      WithinIsPlaced(all, edges, first, k, last, chain);
    }
  }

  lemma RoundKeys(all: set<Memory>, edges: seq<Edge>, first: map<string, string>, k: nat, last: map<string, string>)
    requires first.Keys == Ids(all) && AreRounds(all, edges, first, k, last)
    ensures last.Keys == Ids(all)
  {
  }

  lemma {:induction false} PlacedIsWithin(all: set<Memory>, edges: seq<Edge>, first: map<string, string>, k: nat, last: map<string, string>, id: string)
    requires first.Keys == Ids(all) && id in Ids(all) && AreRounds(all, edges, first, k, last)
    requires ClusterOf(last, id) != LOOSE
    ensures IsWithin(all, edges, first, id, k)
  {
    hide IsRound, Ids, Adjacent;
    if k == 0 {
      assert Reaches(all, edges, first, id, [id]);
    } else {
      var before :| AreRounds(all, edges, first, k - 1, before) && IsRound(all, edges, before, last);
      RoundReaches(all, edges, before, last, id);
      RoundKeys(all, edges, first, k - 1, before);
      if ClusterOf(before, id) != LOOSE {
        PlacedIsWithin(all, edges, first, k - 1, before, id);
      } else {
        var other :| Adjacent(edges, id, other) && ClusterOf(before, other) != LOOSE;
        PlacedIsWithin(all, edges, first, k - 1, before, other);
        ChainGrows(all, edges, first, id, other, k - 1);
      }
    }
  }

  lemma {:induction false} WithinIsPlaced(all: set<Memory>, edges: seq<Edge>, first: map<string, string>, k: nat, last: map<string, string>, chain: seq<string>)
    requires AreRounds(all, edges, first, k, last)
    requires chain != [] && Reaches(all, edges, first, chain[0], chain) && |chain| - 1 <= k
    ensures ClusterOf(last, chain[0]) != LOOSE
    decreases k
  {
    hide IsRound, Ids, Adjacent;
    var id := chain[0];
    if |chain| == 1 {
      PlacedStays(all, edges, first, k, last, id);
    } else {
      var before :| AreRounds(all, edges, first, k - 1, before) && IsRound(all, edges, before, last);
      assert Reaches(all, edges, first, chain[1], chain[1..]) by {
        assert forall i :: 0 <= i < |chain| - 2 ==> Adjacent(edges, chain[1..][i], chain[1..][i + 1]);
      }
      WithinIsPlaced(all, edges, first, k - 1, before, chain[1..]);
      assert Adjacent(edges, id, chain[1]);
      RoundReaches(all, edges, before, last, id);
    }
  }

  /** The nearest placed node is k edges away. */
  ghost predicate IsAtDistance(all: set<Memory>, edges: seq<Edge>, first: map<string, string>, id: string, k: nat) {
    IsWithin(all, edges, first, id, k) && !IsWithin(all, edges, first, id, k - 1)
  }

  /** A node is placed in round k exactly when the nearest node placed by its tags is k edges away. */
  lemma PlacedInRound(all: set<Memory>, edges: seq<Edge>, first: map<string, string>, k: nat, before: map<string, string>, after: map<string, string>, id: string)
    requires first.Keys == Ids(all) && id in Ids(all) && k > 0
    requires AreRounds(all, edges, first, k - 1, before) && IsRound(all, edges, before, after)
    ensures ClusterOf(before, id) == LOOSE && ClusterOf(after, id) != LOOSE <==> IsAtDistance(all, edges, first, id, k)
  {
    hide IsRound, Reaches, Ids;
    PlacedExactlyWithin(all, edges, first, k - 1, before, id);
    assert AreRounds(all, edges, first, k, after);
    PlacedExactlyWithin(all, edges, first, k, after, id);
    hide AreRounds;
    assert IsWithin(all, edges, first, id, k - 1) ==> IsWithin(all, edges, first, id, k);
  }

  /** What stays loose in the end is exactly what is more than three edges from every node placed by its tags. */
  lemma LooseIsFarAway(all: set<Memory>, edges: seq<Edge>, o: Outcome, id: string)
    requires Clustered(all, edges, o) && id in Ids(all)
    ensures ClusterOf(o.clusters, id) == LOOSE <==> !IsWithin(all, edges, o.folded, id, 3)
  {
    hide ArePicks, AreRounds, AreSubs, Reaches, IsFold;
    PlacedExactlyWithin(all, edges, o.folded, ROUNDS, o.clusters, id);
  }

  // ── Clusters are large, sub-topics are shared ─────────────────────────────

  lemma RoundHasOldClusters(all: set<Memory>, edges: seq<Edge>, before: map<string, string>, after: map<string, string>, m: Memory) returns (k: Memory)
    requires IsRound(all, edges, before, after) && before.Keys == Ids(all) && m in all && ClusterOf(after, m.id) != LOOSE
    ensures k in all && ClusterOf(before, k.id) == ClusterOf(after, m.id)
  {
    hide Weight, Adjacent, Less;
    var c := ClusterOf(after, m.id);
    assert IsAdopted(edges, before, m.id, c);
    if ClusterOf(before, m.id) == c {
      k := m;
    } else {
      assert IsOffered(edges, before, m.id, c);
      var other :| Adjacent(edges, m.id, other) && ClusterOf(before, other) == c;
      assert other in Ids(all);
      k :| k in all && k.id == other;
    }
  }

  /** The rounds make no new clusters. */
  lemma {:induction false} NoNewClusters(all: set<Memory>, edges: seq<Edge>, first: map<string, string>, k: nat, last: map<string, string>, m: Memory) returns (origin: Memory)
    requires AreRounds(all, edges, first, k, last) && first.Keys == Ids(all) && m in all && ClusterOf(last, m.id) != LOOSE
    ensures origin in all && ClusterOf(first, origin.id) == ClusterOf(last, m.id)
  {
    hide IsRound, Ids;
    if k == 0 {
      origin := m;
    } else {
      var before :| AreRounds(all, edges, first, k - 1, before) && IsRound(all, edges, before, last);
      RoundKeys(all, edges, first, k - 1, before);
      var near := RoundHasOldClusters(all, edges, before, last, m);
      origin := NoNewClusters(all, edges, first, k - 1, before, near);
    }
  }

  lemma SubsetIsSmaller<T>(a: set<T>, b: set<T>)
    requires a <= b
    ensures |a| <= |b|
  {
    assert b == a + (b - a);
  }

  lemma SizeGrows(all: set<Memory>, a: map<string, string>, b: map<string, string>, c: string)
    requires forall m :: m in all && ClusterOf(a, m.id) == c ==> ClusterOf(b, m.id) == c
    ensures Size(all, a, c) <= Size(all, b, c)
  {
    SubsetIsSmaller(set m | m in all && ClusterOf(a, m.id) == c, set m | m in all && ClusterOf(b, m.id) == c);
  }

  /** Where the fold leaves or puts a node without a project, the cluster was large before the fold. */
  lemma FoldIsLarge(all: set<Memory>, picks: map<string, string>, m: Memory, c: string)
    requires IsFold(all, picks, m, c) && m.project.None? && c != LOOSE
    ensures Size(all, picks, c) >= MinOuter(|all|)
  {
    hide Size, MinOuter;
  }

  lemma LargeIsKept(all: set<Memory>, picks: map<string, string>, m: Memory, c: string)
    requires IsFold(all, picks, m, c) && Size(all, picks, ClusterOf(picks, m.id)) >= MinOuter(|all|)
    ensures c == ClusterOf(picks, m.id)
  {
    hide Size, MinOuter;
  }

  /**
   A cluster without a node that a project pinned to it has at least three nodes, and at least one
   in a hundred of all nodes.
   */
  lemma ClustersAreLarge(all: set<Memory>, edges: seq<Edge>, o: Outcome, m: Memory)
    requires Clustered(all, edges, o) && m in all && ClusterOf(o.clusters, m.id) != LOOSE
    requires forall k :: k in all && ClusterOf(o.clusters, k.id) == ClusterOf(o.clusters, m.id) ==> k.project.None?
    ensures Size(all, o.clusters, ClusterOf(o.clusters, m.id)) >= MinOuter(|all|)
  {
    hide ArePicks, AreRounds, AreSubs, IsFold, Size, MinOuter;
    var c := ClusterOf(o.clusters, m.id);
    var origin := NoNewClusters(all, edges, o.folded, ROUNDS, o.clusters, m);
    forall k | k in all && ClusterOf(o.folded, k.id) == c ensures ClusterOf(o.clusters, k.id) == c {
      PlacedStays(all, edges, o.folded, ROUNDS, o.clusters, k.id);
    }
    FoldIsLarge(all, o.picks, origin, c);
    forall k | k in all && ClusterOf(o.picks, k.id) == c ensures ClusterOf(o.folded, k.id) == c {
      LargeIsKept(all, o.picks, k, ClusterOf(o.folded, k.id));
    }
    SizeGrows(all, o.picks, o.folded, c);
    SizeGrows(all, o.folded, o.clusters, c);
  }

  /** A node with a project is in the cluster of its project. */
  lemma ProjectDecides(all: set<Memory>, edges: seq<Edge>, o: Outcome, m: Memory)
    requires ProperGraph(all) && Clustered(all, edges, o) && m in all && m.project.Some?
    ensures ClusterOf(o.clusters, m.id) == m.project.value
  {
    hide AreRounds, AreSubs, Size, Uses;
    assert IsPick(all, m, ClusterOf(o.picks, m.id)) && IsFold(all, o.picks, m, ClusterOf(o.folded, m.id)) && Proper(m);
    hide ArePicks, AreFolds;
    PlacedStays(all, edges, o.folded, ROUNDS, o.clusters, m.id);
  }

  /**
   A sub-topic is a tag that the node and another node of its cluster carry, and at least half the
   nodes that carry it are in the cluster.
   */
  lemma SubTopicsAreShared(all: set<Memory>, edges: seq<Edge>, o: Outcome, m: Memory)
    requires Clustered(all, edges, o) && m in all && o.subs[m.id].Some?
    ensures var t, c := o.subs[m.id].value, ClusterOf(o.clusters, m.id);
      && t in m.tags && t != c && c != LOOSE
      && (exists k :: k in all && k != m && ClusterOf(o.clusters, k.id) == c && t in k.tags)
      && |set k | k in all && t in k.tags && ClusterOf(o.clusters, k.id) != c| <= |set k | k in all && t in k.tags && ClusterOf(o.clusters, k.id) == c|
  {
    hide ArePicks, AreFolds, AreRounds;
    assert IsSub(all, o.clusters, m, o.subs[m.id]);
    var t := o.subs[m.id].value;
    assert IsSubTopic(all, o.clusters, m, t);
    hide AreSubs, IsSub;
    SubTopicIsShared(all, o.clusters, m, t);
  }

  lemma HalfIsInside(all: set<Memory>, clusters: map<string, string>, c: string, t: string)
    requires 2 * UsesWithin(all, clusters, c, t) >= Uses(all, t)
    ensures |set k | k in all && t in k.tags && ClusterOf(clusters, k.id) != c| <= |set k | k in all && t in k.tags && ClusterOf(clusters, k.id) == c|
  {
    hide ClusterOf;
    var inside := set k | k in all && ClusterOf(clusters, k.id) == c && t in k.tags;
    var outside := set k | k in all && t in k.tags && ClusterOf(clusters, k.id) != c;
    assert (set k | k in all && t in k.tags) == inside + outside;
    assert inside == set k | k in all && t in k.tags && ClusterOf(clusters, k.id) == c;
  }

  lemma AnotherCarries(all: set<Memory>, clusters: map<string, string>, m: Memory, c: string, t: string)
    requires m in all && t in m.tags && ClusterOf(clusters, m.id) == c && UsesWithin(all, clusters, c, t) >= 2
    ensures exists k :: k in all && k != m && ClusterOf(clusters, k.id) == c && t in k.tags
  {
    hide ClusterOf;
    var carriers := set k | k in all && ClusterOf(clusters, k.id) == c && t in k.tags;
    var other := TwoMembers(carriers, m);
  }

  lemma SubTopicIsShared(all: set<Memory>, clusters: map<string, string>, m: Memory, t: string)
    requires m in all && IsSubTopic(all, clusters, m, t)
    ensures var c := ClusterOf(clusters, m.id);
      && (exists k :: k in all && k != m && ClusterOf(clusters, k.id) == c && t in k.tags)
      && |set k | k in all && t in k.tags && ClusterOf(clusters, k.id) != c| <= |set k | k in all && t in k.tags && ClusterOf(clusters, k.id) == c|
  {
    var c := ClusterOf(clusters, m.id);
    hide Uses, UsesWithin, ClusterOf;
    HalfIsInside(all, clusters, c, t);
    AnotherCarries(all, clusters, m, c, t);
  }

  lemma TwoMembers<T>(s: set<T>, x: T) returns (y: T)
    requires |s| >= 2 && x in s
    ensures y in s && y != x
  {
    if s <= {x} {
      SubsetIsSmaller(s, {x});
    }
    y :| y in s && y != x;
  }
}
