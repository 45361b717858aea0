/**
 Grouping the graph's memories into topic clusters (public/utils.js, assignGraphClusters): the four
 passes as they write the nodes' fields, each tied to what ClusterRules says of it.
 */
module GraphClusters {
  import opened Options
  import opened JsText
  import opened ClusterRules
  import opened ClusterLaws

  class Node {
    const memory: Memory
    var cluster: string
    var sub: Option<string>

    constructor (memory: Memory)
      ensures this.memory == memory
    {
      this.memory := memory;
      cluster, sub := LOOSE, None;
    }
  }

  // ── What the nodes say ────────────────────────────────────────────────────

  ghost function All(nodes: seq<Node>): set<Memory> {
    set n | n in nodes :: n.memory
  }

  ghost predicate Distinct(nodes: seq<Node>) {
    forall i, j :: 0 <= i < j < |nodes| ==> nodes[i].memory.id != nodes[j].memory.id
  }

  ghost predicate IsGraph(nodes: seq<Node>) {
    Distinct(nodes) && forall n :: n in nodes ==> Proper(n.memory)
  }

  ghost function Clusters(nodes: seq<Node>): map<string, string>
    reads nodes`cluster
  {
    if nodes == [] then map[]
    else var last := |nodes| - 1; Clusters(nodes[..last])[nodes[last].memory.id := nodes[last].cluster]
  }

  ghost function Subs(nodes: seq<Node>): map<string, Option<string>>
    reads nodes`sub
  {
    if nodes == [] then map[]
    else var last := |nodes| - 1; Subs(nodes[..last])[nodes[last].memory.id := nodes[last].sub]
  }

  function SubOf(subs: map<string, Option<string>>, id: string): Option<string> {
    if id in subs then subs[id] else None
  }

  lemma {:induction false} KeysAreIds(nodes: seq<Node>)
    requires Distinct(nodes)
    ensures Clusters(nodes).Keys == Ids(All(nodes))
  {
    if nodes != [] {
      var last := |nodes| - 1;
      KeysAreIds(nodes[..last]);
      OneMoreMemory(nodes, last);
      assert nodes[..last + 1] == nodes;
    }
  }

  lemma {:induction false} ClusterOfNode(nodes: seq<Node>, i: nat)
    requires Distinct(nodes) && i < |nodes|
    ensures ClusterOf(Clusters(nodes), nodes[i].memory.id) == nodes[i].cluster
  {
    var last := |nodes| - 1;
    if i < last {
      ClusterOfNode(nodes[..last], i);
      assert nodes[i].memory.id != nodes[last].memory.id;
    }
  }

  lemma ClustersAt(nodes: seq<Node>)
    requires Distinct(nodes)
    ensures Clusters(nodes).Keys == Ids(All(nodes))
    ensures forall i :: 0 <= i < |nodes| ==> ClusterOf(Clusters(nodes), nodes[i].memory.id) == nodes[i].cluster
  {
    KeysAreIds(nodes);
    hide Clusters, Ids, All, Distinct;
    forall i | 0 <= i < |nodes| ensures ClusterOf(Clusters(nodes), nodes[i].memory.id) == nodes[i].cluster {
      ClusterOfNode(nodes, i);
    }
  }

  lemma {:induction false} SubKeysAreIds(nodes: seq<Node>)
    requires Distinct(nodes)
    ensures Subs(nodes).Keys == Ids(All(nodes))
  {
    if nodes != [] {
      var last := |nodes| - 1;
      SubKeysAreIds(nodes[..last]);
      OneMoreMemory(nodes, last);
      assert nodes[..last + 1] == nodes;
    }
  }

  lemma {:induction false} SubOfNode(nodes: seq<Node>, i: nat)
    requires Distinct(nodes) && i < |nodes|
    ensures SubOf(Subs(nodes), nodes[i].memory.id) == nodes[i].sub
  {
    var last := |nodes| - 1;
    if i < last {
      SubOfNode(nodes[..last], i);
      assert nodes[i].memory.id != nodes[last].memory.id;
    }
  }

  lemma SubsAt(nodes: seq<Node>)
    requires Distinct(nodes)
    ensures Subs(nodes).Keys == Ids(All(nodes))
    ensures forall i :: 0 <= i < |nodes| ==> SubOf(Subs(nodes), nodes[i].memory.id) == nodes[i].sub
  {
    SubKeysAreIds(nodes);
    hide Subs, Ids, All, Distinct, SubOf;
    forall i | 0 <= i < |nodes| ensures SubOf(Subs(nodes), nodes[i].memory.id) == nodes[i].sub {
      SubOfNode(nodes, i);
    }
  }

  lemma OneMoreMemory(nodes: seq<Node>, k: nat)
    requires Distinct(nodes) && k < |nodes|
    ensures All(nodes[..k + 1]) == All(nodes[..k]) + {nodes[k].memory} && nodes[k].memory !in All(nodes[..k])
    ensures Ids(All(nodes[..k + 1])) == Ids(All(nodes[..k])) + {nodes[k].memory.id}
  {
    assert nodes[..k + 1] == nodes[..k] + [nodes[k]];
  }

  lemma {:induction false} AsManyMemories(nodes: seq<Node>)
    requires Distinct(nodes)
    ensures |All(nodes)| == |nodes|
  {
    if nodes != [] {
      var last := |nodes| - 1;
      AsManyMemories(nodes[..last]);
      OneMoreMemory(nodes, last);
      assert nodes[..last + 1] == nodes;
    }
  }

  // ── Counting ──────────────────────────────────────────────────────────────

  function Get(counts: map<string, nat>, t: string): nat {
    if t in counts then counts[t] else 0
  }

  lemma UsesOfOneMore(all: set<Memory>, m: Memory, t: string)
    requires m !in all
    ensures Uses(all + {m}, t) == Uses(all, t) + if t in m.tags then 1 else 0
  {
    var now, next := set k | k in all && t in k.tags, set k | k in all + {m} && t in k.tags;
    assert next == if t in m.tags then now + {m} else now;
  }

  lemma SizeOfOneMore(all: set<Memory>, clusters: map<string, string>, m: Memory, c: string)
    requires m !in all
    ensures Size(all + {m}, clusters, c) == Size(all, clusters, c) + if ClusterOf(clusters, m.id) == c then 1 else 0
  {
    var now, next := set k | k in all && ClusterOf(clusters, k.id) == c, set k | k in all + {m} && ClusterOf(clusters, k.id) == c;
    assert next == if ClusterOf(clusters, m.id) == c then now + {m} else now;
  }

  /** Counts each of a node's tags once more, but for one tag that is passed over. */
  method CountEach(counts: map<string, nat>, tags: seq<string>, except: Option<string>) returns (more: map<string, nat>)
    requires forall i, j :: 0 <= i < j < |tags| ==> tags[i] != tags[j]
    ensures forall t :: Get(more, t) == Get(counts, t) + if t in tags && Some(t) != except then 1 else 0
  {
    more := counts;
    for i := 0 to |tags|
      invariant forall t :: Get(more, t) == Get(counts, t) + if t in tags[..i] && Some(t) != except then 1 else 0
    {
      var t := tags[i];
      assert t !in tags[..i] && tags[..i + 1] == tags[..i] + [t];
      if Some(t) != except {
        more := more[t := Get(more, t) + 1];
      }
    }
    assert tags[..|tags|] == tags;
  }

  /** In how many of the nodes each tag is, but for one tag that is passed over. */
  method CountTags(nodes: seq<Node>, except: Option<string>) returns (counts: map<string, nat>)
    requires IsGraph(nodes)
    ensures forall t :: Some(t) != except ==> Get(counts, t) == Uses(All(nodes), t)
  {
    counts := map[];
    for i := 0 to |nodes|
      invariant forall t :: Some(t) != except ==> Get(counts, t) == Uses(All(nodes[..i]), t)
    {
      var m := nodes[i].memory;
      ghost var before := counts;
      assert Proper(m) by { assert nodes[i] in nodes; }
      counts := CountEach(counts, m.tags, except);
      OneMoreMemory(nodes, i);
      forall t | Some(t) != except ensures Get(counts, t) == Uses(All(nodes[..i + 1]), t) {
        UsesOfOneMore(All(nodes[..i]), m, t);
      }
    }
    assert nodes[..|nodes|] == nodes;
  }

  method CountClusters(nodes: seq<Node>) returns (counts: map<string, nat>)
    requires IsGraph(nodes)
    ensures forall c :: Get(counts, c) == Size(All(nodes), Clusters(nodes), c)
  {
    ClustersAt(nodes);
    ghost var clusters := Clusters(nodes);
    counts := map[];
    for i := 0 to |nodes|
      invariant forall c :: Get(counts, c) == Size(All(nodes[..i]), clusters, c)
    {
      var n := nodes[i];
      ghost var before := counts;
      counts := counts[n.cluster := Get(counts, n.cluster) + 1];
      OneMoreMemory(nodes, i);
      forall c ensures Get(counts, c) == Size(All(nodes[..i + 1]), clusters, c) {
        SizeOfOneMore(All(nodes[..i]), clusters, n.memory, c);
      }
    }
    assert nodes[..|nodes|] == nodes;
  }

  // ── The pick ──────────────────────────────────────────────────────────────

  ghost predicate CountsUses(all: set<Memory>, counts: map<string, nat>) {
    forall t :: Get(counts, t) == Uses(all, t)
  }

  lemma NearerIsTransitive(d: nat, t: string, e: nat, u: string, f: nat, v: string, n: nat)
    requires Nearer(d, t, e, u, n) && Nearer(e, u, f, v, n)
    ensures Nearer(d, t, f, v, n)
  {
    hide Distance, Less;
    if Less(t, u) && Less(u, v) {
      LessIsTransitive(t, u, v);
    }
  }

  lemma NearerIsTotal(d: nat, t: string, e: nat, u: string, n: nat)
    requires t != u
    ensures Nearer(d, t, e, u, n) || Nearer(e, u, d, t, n)
  {
    hide Distance, Less;
    LessIsTotal(t, u);
  }

  /** Of the tags so far that may be picked, this is the nearest. */
  ghost predicate NearestSoFar(all: set<Memory>, m: Memory, axis: bool, k: nat, best: Option<string>)
    requires k <= |m.tags|
  {
    && (best.None? ==> forall i :: 0 <= i < k ==> !Eligible(all, m, axis, m.tags[i]))
    && (best.Some? ==>
          && Eligible(all, m, axis, best.value)
          && forall i :: 0 <= i < k && Eligible(all, m, axis, m.tags[i]) && m.tags[i] != best.value ==>
               Nearer(Uses(all, best.value), best.value, Uses(all, m.tags[i]), m.tags[i], |all|))
  }

  lemma NearestGoesOn(all: set<Memory>, m: Memory, axis: bool, k: nat, best: Option<string>)
    requires k < |m.tags| && NearestSoFar(all, m, axis, k, best)
    ensures var t := m.tags[k];
      NearestSoFar(all, m, axis, k + 1,
        if Eligible(all, m, axis, t) && (best.None? || Nearer(Uses(all, t), t, Uses(all, best.value), best.value, |all|)) then Some(t) else best)
  {
    var t := m.tags[k];
    hide Nearer, Uses, Eligible;
    if Eligible(all, m, axis, t) && best.Some? {
      if Nearer(Uses(all, t), t, Uses(all, best.value), best.value, |all|) {
        forall i | 0 <= i < k && Eligible(all, m, axis, m.tags[i]) && m.tags[i] != t
          ensures Nearer(Uses(all, t), t, Uses(all, m.tags[i]), m.tags[i], |all|)
        {
          if m.tags[i] != best.value {
            NearerIsTransitive(Uses(all, t), t, Uses(all, best.value), best.value, Uses(all, m.tags[i]), m.tags[i], |all|);
          }
        }
      } else if t != best.value {
        NearerIsTotal(Uses(all, t), t, Uses(all, best.value), best.value, |all|);
      }
    }
  }

  lemma NearestOfAll(all: set<Memory>, m: Memory, axis: bool, best: Option<string>)
    requires NearestSoFar(all, m, axis, |m.tags|, best)
    ensures if HasEligible(all, m, axis) then best.Some? && IsNearest(all, m, axis, best.value) else best.None?
  {
    hide Nearer, Uses, IsAxis;
  }

  method NearestTag(ghost all: set<Memory>, m: Memory, axis: bool, counts: map<string, nat>, n: nat) returns (best: Option<string>)
    requires CountsUses(all, counts) && n == |all|
    ensures if HasEligible(all, m, axis) then best.Some? && IsNearest(all, m, axis, best.value) else best.None?
  {
    best := None;
    for k := 0 to |m.tags|
      invariant NearestSoFar(all, m, axis, k, best)
    {
      var t := m.tags[k];
      NearestGoesOn(all, m, axis, k, best);
      hide NearestSoFar, Nearer, Uses, IsAxis;
      if (axis || !IsAxis(t)) && Get(counts, t) >= MIN_CLUSTER_SIZE {
        if best.None? || Nearer(Get(counts, t), t, Get(counts, best.value), best.value, n) {
          best := Some(t);
        }
      }
    }
    NearestOfAll(all, m, axis, best);
  }

  method PickOne(ghost all: set<Memory>, m: Memory, counts: map<string, nat>, n: nat) returns (c: string)
    requires CountsUses(all, counts) && n == |all|
    ensures IsPick(all, m, c)
  {
    hide CountsUses, HasEligible, IsNearest;
    if m.project.Some? {
      c := m.project.value;
    } else {
      var best := NearestTag(all, m, false, counts, n);
      if best.None? {
        best := NearestTag(all, m, true, counts, n);
      }
      c := if best.Some? then best.value else LOOSE;
    }
  }

  method PickClusters(nodes: seq<Node>, counts: map<string, nat>)
    requires IsGraph(nodes) && CountsUses(All(nodes), counts)
    modifies nodes`cluster
    ensures ArePicks(All(nodes), Clusters(nodes))
  {
    ghost var all := All(nodes);
    AsManyMemories(nodes);
    for i := 0 to |nodes|
      invariant forall j :: 0 <= j < i ==> IsPick(all, nodes[j].memory, nodes[j].cluster)
    {
      hide IsPick, CountsUses;
      nodes[i].cluster := PickOne(all, nodes[i].memory, counts, |nodes|);
    }
    hide IsPick;
    ClustersAt(nodes);
  }

  // ── The fold ──────────────────────────────────────────────────────────────

  ghost predicate CountsSizes(all: set<Memory>, clusters: map<string, string>, counts: map<string, nat>) {
    forall c :: Get(counts, c) == Size(all, clusters, c)
  }

  /** Of the first k tags, `alt` is the largest refuge, the first of them if several are, and `size` its size. */
  ghost predicate LargestSoFar(all: set<Memory>, picks: map<string, string>, m: Memory, k: nat, alt: Option<nat>, size: int)
    requires k <= |m.tags|
  {
    && (alt.None? ==> size == MinOuter(|all|) - 1)
    && (alt.Some? ==>
          && alt.value < k && IsRefuge(all, picks, m, m.tags[alt.value]) && size == Size(all, picks, m.tags[alt.value])
          && forall j :: 0 <= j < alt.value && IsRefuge(all, picks, m, m.tags[j]) ==> Size(all, picks, m.tags[j]) < size)
    && (forall j :: 0 <= j < k && IsRefuge(all, picks, m, m.tags[j]) ==> Size(all, picks, m.tags[j]) <= size)
  }

  lemma LargestGoesOn(all: set<Memory>, picks: map<string, string>, m: Memory, k: nat, alt: Option<nat>, size: int)
    requires k < |m.tags| && LargestSoFar(all, picks, m, k, alt, size)
    ensures var s := Size(all, picks, m.tags[k]);
      if m.tags[k] != ClusterOf(picks, m.id) && s > size then LargestSoFar(all, picks, m, k + 1, Some(k), s)
      else LargestSoFar(all, picks, m, k + 1, alt, size)
    ensures size >= MinOuter(|all|) - 1
  {
    hide Size, MinOuter, ClusterOf;
  }

  lemma LargestOfAll(all: set<Memory>, picks: map<string, string>, m: Memory, alt: Option<nat>, size: int)
    requires LargestSoFar(all, picks, m, |m.tags|, alt, size) && !IsSettled(all, picks, m)
    ensures IsFold(all, picks, m, if alt.Some? then m.tags[alt.value] else LOOSE)
  {
    hide Size, MinOuter, ClusterOf, IsSettled;
    if alt.Some? {
      assert IsLargest(all, picks, m, alt.value);
    }
  }

  method FoldOne(ghost all: set<Memory>, ghost picks: map<string, string>, m: Memory, cluster: string, counts: map<string, nat>, n: nat)
    returns (c: string)
    requires CountsSizes(all, picks, counts) && n == |all| && cluster == ClusterOf(picks, m.id)
    ensures IsFold(all, picks, m, c)
  {
    if cluster == LOOSE || m.project.Some? || Get(counts, cluster) >= MinOuter(n) {
      c := cluster;
    } else {
      var alt: Option<nat> := None;
      var size: int := MinOuter(n) - 1;
      assert !IsSettled(all, picks, m);
      hide IsSettled, IsFold;
      for k := 0 to |m.tags|
        invariant LargestSoFar(all, picks, m, k, alt, size)
      {
        var t := m.tags[k];
        LargestGoesOn(all, picks, m, k, alt, size);
        hide LargestSoFar, Size, ClusterOf;
        if t != cluster {
          var s := Get(counts, t);
          if s > size {
            size := s;
            alt := Some(k);
          }
        }
      }
      c := if alt.Some? then m.tags[alt.value] else LOOSE;
      LargestOfAll(all, picks, m, alt, size);
    }
  }

  method FoldEach(nodes: seq<Node>, counts: map<string, nat>, ghost all: set<Memory>, ghost picks: map<string, string>)
    requires Distinct(nodes) && all == All(nodes) && |nodes| == |all| && CountsSizes(all, picks, counts)
    requires forall j :: 0 <= j < |nodes| ==> nodes[j].cluster == ClusterOf(picks, nodes[j].memory.id)
    modifies nodes`cluster
    ensures forall j :: 0 <= j < |nodes| ==> IsFold(all, picks, nodes[j].memory, nodes[j].cluster)
  {
    hide CountsSizes, IsFold, ClusterOf, All;
    for i := 0 to |nodes|
      invariant forall j :: 0 <= j < i ==> IsFold(all, picks, nodes[j].memory, nodes[j].cluster)
      invariant forall j :: i <= j < |nodes| ==> nodes[j].cluster == ClusterOf(picks, nodes[j].memory.id)
    {
      nodes[i].cluster := FoldOne(all, picks, nodes[i].memory, nodes[i].cluster, counts, |nodes|);
    }
  }

  lemma FoldedAreFolds(nodes: seq<Node>, picks: map<string, string>)
    requires Distinct(nodes) && forall j :: 0 <= j < |nodes| ==> IsFold(All(nodes), picks, nodes[j].memory, nodes[j].cluster)
    ensures AreFolds(All(nodes), picks, Clusters(nodes))
  {
    ClustersAt(nodes);
    hide IsFold;
  }

  method FoldClusters(nodes: seq<Node>)
    requires IsGraph(nodes)
    modifies nodes`cluster
    ensures AreFolds(All(nodes), old(Clusters(nodes)), Clusters(nodes))
  {
    ghost var picks := Clusters(nodes);
    AsManyMemories(nodes);
    var counts := CountClusters(nodes);
    ClustersAt(nodes);
    assert CountsSizes(All(nodes), picks, counts);
    hide CountsSizes, IsFold, All, Clusters;
    FoldEach(nodes, counts, All(nodes), picks);
    FoldedAreFolds(nodes, picks);
  }

  // ── The rounds ────────────────────────────────────────────────────────────

  datatype Link = Link(other: string, weight: real)

  /** The links that an edge gives a node; an edge from a node to itself gives two. */
  function LinksFrom(e: Edge, id: string): seq<Link> {
    (if e.source == id then [Link(e.target, WeightOf(e))] else []) + (if e.target == id then [Link(e.source, WeightOf(e))] else [])
  }

  /** The links of a node, in the order of the edges. */
  function Links(edges: seq<Edge>, id: string): seq<Link> {
    if edges == [] then [] else Links(edges[..|edges| - 1], id) + LinksFrom(edges[|edges| - 1], id)
  }

  function LinksOf(adjacency: map<string, seq<Link>>, id: string): seq<Link> {
    if id in adjacency then adjacency[id] else []
  }

  ghost predicate Connects(adjacency: map<string, seq<Link>>, edges: seq<Edge>) {
    forall id :: LinksOf(adjacency, id) == Links(edges, id)
  }

  /** Both ends of an edge learn of it. */
  method ConnectOne(adjacency: map<string, seq<Link>>, e: Edge) returns (more: map<string, seq<Link>>)
    ensures forall id :: LinksOf(more, id) == LinksOf(adjacency, id) + LinksFrom(e, id)
  {
    hide WeightOf;
    more := adjacency[e.source := LinksOf(adjacency, e.source) + [Link(e.target, WeightOf(e))]];
    more := more[e.target := LinksOf(more, e.target) + [Link(e.source, WeightOf(e))]];
  }

  method Connect(edges: seq<Edge>) returns (adjacency: map<string, seq<Link>>)
    ensures Connects(adjacency, edges)
  {
    adjacency := map[];
    for i := 0 to |edges|
      invariant forall id :: LinksOf(adjacency, id) == Links(edges[..i], id)
    {
      assert edges[..i + 1][..i] == edges[..i];
      hide LinksOf, LinksFrom;
      adjacency := ConnectOne(adjacency, edges[i]);
    }
    assert edges[..|edges|] == edges;
  }

  function LinkPull(l: Link, clusters: map<string, string>, c: string): real {
    if ClusterOf(clusters, l.other) == c then l.weight else 0.0
  }

  function LinkWeight(links: seq<Link>, clusters: map<string, string>, c: string): real {
    if links == [] then 0.0 else LinkWeight(links[..|links| - 1], clusters, c) + LinkPull(links[|links| - 1], clusters, c)
  }

  ghost predicate LinkOffers(links: seq<Link>, clusters: map<string, string>, c: string) {
    c != LOOSE && exists l :: l in links && ClusterOf(clusters, l.other) == c
  }

  lemma LinkWeightOfOneMore(links: seq<Link>, l: Link, clusters: map<string, string>, c: string)
    ensures LinkWeight(links + [l], clusters, c) == LinkWeight(links, clusters, c) + LinkPull(l, clusters, c)
  {
    assert (links + [l])[..|links|] == links;
  }

  lemma LinksFromPull(links: seq<Link>, e: Edge, clusters: map<string, string>, id: string, c: string)
    ensures LinkWeight(links + LinksFrom(e, id), clusters, c) == LinkWeight(links, clusters, c) + Pull(e, clusters, id, c)
  {
    var l, r := Link(e.target, WeightOf(e)), Link(e.source, WeightOf(e));
    LinkWeightOfOneMore(links, l, clusters, c);
    LinkWeightOfOneMore(links, r, clusters, c);
    LinkWeightOfOneMore(links + [l], r, clusters, c);
    hide LinkWeight, WeightOf, ClusterOf;
    var all := links + LinksFrom(e, id);
    if e.source == id {
      assert all == if e.target == id then links + [l] + [r] else links + [l];
    } else {
      assert all == if e.target == id then links + [r] else links;
    }
  }

  /** Summing over a node's links is summing over the edges. */
  lemma {:induction false} LinksWeighAsEdges(edges: seq<Edge>, clusters: map<string, string>, id: string, c: string)
    ensures LinkWeight(Links(edges, id), clusters, c) == Weight(edges, clusters, id, c)
  {
    hide LinksFrom, Pull;
    if edges != [] {
      var front, e := edges[..|edges| - 1], edges[|edges| - 1];
      LinksWeighAsEdges(front, clusters, id, c);
      LinksFromPull(Links(front, id), e, clusters, id, c);
    }
  }

  lemma LinksFromJoins(e: Edge, id: string, other: string)
    ensures (exists l :: l in LinksFrom(e, id) && l.other == other) <==> Joins(e, id, other)
  {
    assert e.source == id ==> Link(e.target, WeightOf(e)) in LinksFrom(e, id);
    assert e.target == id ==> Link(e.source, WeightOf(e)) in LinksFrom(e, id);
  }

  lemma {:induction false} LinksAreNeighbours(edges: seq<Edge>, id: string, other: string)
    ensures (exists l :: l in Links(edges, id) && l.other == other) <==> Adjacent(edges, id, other)
  {
    hide LinksFrom, Joins;
    if edges != [] {
      var front, e := edges[..|edges| - 1], edges[|edges| - 1];
      LinksAreNeighbours(front, id, other);
      LinksFromJoins(e, id, other);
      assert edges == front + [e];
    }
  }

  lemma LinksOfferAsEdges(edges: seq<Edge>, clusters: map<string, string>, id: string, c: string)
    ensures LinkOffers(Links(edges, id), clusters, c) <==> IsOffered(edges, clusters, id, c)
  {
    if LinkOffers(Links(edges, id), clusters, c) {
      var l :| l in Links(edges, id) && ClusterOf(clusters, l.other) == c;
      LinksAreNeighbours(edges, id, l.other);
    }
    if IsOffered(edges, clusters, id, c) {
      var other :| Adjacent(edges, id, other) && ClusterOf(clusters, other) == c;
      LinksAreNeighbours(edges, id, other);
      var l :| l in Links(edges, id) && l.other == other;
    }
  }

  /** The index of the nodes by their ids. */
  ghost predicate Finds(byId: map<string, Node>, nodes: seq<Node>) {
    && (forall n :: n in nodes ==> n.memory.id in byId && byId[n.memory.id] == n)
    && (forall id :: id in byId ==> byId[id] in nodes && byId[id].memory.id == id)
  }

  method Index(nodes: seq<Node>) returns (byId: map<string, Node>)
    requires Distinct(nodes)
    ensures Finds(byId, nodes)
  {
    byId := map[];
    for i := 0 to |nodes|
      invariant Finds(byId, nodes[..i])
    {
      assert nodes[..i + 1] == nodes[..i] + [nodes[i]];
      byId := byId[nodes[i].memory.id := nodes[i]];
    }
    assert nodes[..|nodes|] == nodes;
  }

  function ClusterAt(byId: map<string, Node>, id: string): string
    reads byId.Values`cluster
  {
    if id in byId then byId[id].cluster else LOOSE
  }

  lemma FindsClusters(byId: map<string, Node>, nodes: seq<Node>, id: string)
    requires Distinct(nodes) && Finds(byId, nodes)
    ensures ClusterAt(byId, id) == ClusterOf(Clusters(nodes), id)
  {
    ClustersAt(nodes);
    if id in byId {
      var i :| 0 <= i < |nodes| && nodes[i] == byId[id];
    } else {
      assert id !in Ids(All(nodes));
    }
  }

  function WeightSoFar(weights: map<string, real>, c: string): real {
    if c in weights then weights[c] else 0.0
  }

  /** The weights of the clusters that the links offer. */
  ghost predicate Weighs(weights: map<string, real>, links: seq<Link>, clusters: map<string, string>) {
    && (forall c :: c in weights <==> LinkOffers(links, clusters, c))
    && (forall c :: c != LOOSE ==> WeightSoFar(weights, c) == LinkWeight(links, clusters, c))
  }

  lemma OffersOneMore(links: seq<Link>, l: Link, clusters: map<string, string>, c: string)
    ensures LinkOffers(links + [l], clusters, c) <==> LinkOffers(links, clusters, c) || (c != LOOSE && ClusterOf(clusters, l.other) == c)
  {
    hide ClusterOf;
    assert forall k :: k in links + [l] <==> k in links || k == l;
  }

  lemma WeighsOneMore(weights: map<string, real>, links: seq<Link>, l: Link, clusters: map<string, string>)
    requires Weighs(weights, links, clusters)
    ensures var c := ClusterOf(clusters, l.other);
      Weighs(if c == LOOSE then weights else weights[c := WeightSoFar(weights, c) + l.weight], links + [l], clusters)
  {
    forall c
      ensures LinkWeight(links + [l], clusters, c) == LinkWeight(links, clusters, c) + LinkPull(l, clusters, c)
      ensures LinkOffers(links + [l], clusters, c) <==> LinkOffers(links, clusters, c) || (c != LOOSE && ClusterOf(clusters, l.other) == c)
    {
      LinkWeightOfOneMore(links, l, clusters, c);
      OffersOneMore(links, l, clusters, c);
    }
    hide LinkWeight, LinkOffers, ClusterOf;
  }

  ghost predicate Lists(order: seq<string>, weights: map<string, real>) {
    forall c :: c in order <==> c in weights
  }

  /** Adds one link's weight to its cluster. */
  method AddWeight(weights: map<string, real>, order: seq<string>, l: Link, c: string, ghost links: seq<Link>, ghost clusters: map<string, string>)
    returns (weights': map<string, real>, order': seq<string>)
    requires Weighs(weights, links, clusters) && Lists(order, weights) && c == ClusterOf(clusters, l.other)
    ensures Weighs(weights', links + [l], clusters) && Lists(order', weights')
  {
    WeighsOneMore(weights, links, l, clusters);
    hide Weighs;
    weights', order' := weights, order;
    if c != LOOSE {
      if c !in weights {
        order' := order + [c];
      }
      weights' := weights[c := WeightSoFar(weights, c) + l.weight];
    }
  }

  method Weigh(links: seq<Link>, byId: map<string, Node>, ghost nodes: seq<Node>) returns (weights: map<string, real>, order: seq<string>)
    requires Distinct(nodes) && Finds(byId, nodes)
    ensures Weighs(weights, links, Clusters(nodes)) && Lists(order, weights)
  {
    weights, order := map[], [];
    for i := 0 to |links|
      invariant Weighs(weights, links[..i], Clusters(nodes)) && Lists(order, weights)
    {
      hide Weighs, Lists, Finds, Distinct, Clusters, ClusterAt, ClusterOf;
      FindsClusters(byId, nodes, links[i].other);
      weights, order := AddWeight(weights, order, links[i], ClusterAt(byId, links[i].other), links[..i], Clusters(nodes));
      assert links[..i + 1] == links[..i] + [links[i]];
    }
    assert links[..|links|] == links;
  }

  predicate Heavier(w: real, c: string, v: real, d: string) {
    w > v || (w == v && Less(c, d))
  }

  lemma HeavierIsOrder(u: real, b: string, w: real, c: string, v: real, d: string)
    ensures Heavier(u, b, w, c) && Heavier(w, c, v, d) ==> Heavier(u, b, v, d)
    ensures b != c ==> Heavier(u, b, w, c) || Heavier(w, c, u, b)
  {
    hide Less;
    LessIsTotal(b, c);
    if Less(b, c) && Less(c, d) {
      LessIsTransitive(b, c, d);
    }
  }

  /** The heaviest of the clusters weighed. */
  method Heaviest(weights: map<string, real>, order: seq<string>) returns (best: Option<string>)
    requires forall c :: c in order ==> c in weights
    ensures best.None? <==> order == []
    ensures best.Some? ==> best.value in order
    ensures best.Some? ==> forall d :: d in order && d != best.value ==> Heavier(weights[best.value], best.value, weights[d], d)
  {
    best := None;
    for i := 0 to |order|
      invariant best.None? <==> i == 0
      invariant best.Some? ==> best.value in order[..i]
      invariant best.Some? ==> forall j :: 0 <= j < i && order[j] != best.value ==> Heavier(weights[best.value], best.value, weights[order[j]], order[j])
    {
      var c := order[i];
      ghost var was := best;
      if best.None? || Heavier(weights[c], c, weights[best.value], best.value) {
        best := Some(c);
      }
      hide Heavier;
      forall j | 0 <= j <= i && order[j] != best.value
        ensures Heavier(weights[best.value], best.value, weights[order[j]], order[j])
      {
        if was.Some? {
          HeavierIsOrder(weights[c], c, weights[was.value], was.value, weights[order[j]], order[j]);
        }
      }
    }
  }

  lemma AdoptsHeaviest(edges: seq<Edge>, clusters: map<string, string>, id: string, weights: map<string, real>, best: Option<string>)
    requires ClusterOf(clusters, id) == LOOSE
    requires Weighs(weights, Links(edges, id), clusters)
    requires best.None? ==> weights == map[]
    requires best.Some? ==> best.value in weights
    requires best.Some? ==> forall d :: d in weights && d != best.value ==> Heavier(weights[best.value], best.value, weights[d], d)
    ensures IsAdopted(edges, clusters, id, if best.Some? then best.value else LOOSE)
  {
    var links := Links(edges, id);
    forall c ensures c in weights <==> IsOffered(edges, clusters, id, c) {
      LinksOfferAsEdges(edges, clusters, id, c);
    }
    forall c | c in weights ensures weights[c] == Weight(edges, clusters, id, c) {
      LinksWeighAsEdges(edges, clusters, id, c);
    }
    hide Weighs, Links, Weight, IsOffered, Less;
  }

  datatype Placing = Placing(node: Node, cluster: string)

  method AdoptOne(n: Node, adjacency: map<string, seq<Link>>, byId: map<string, Node>, ghost nodes: seq<Node>, ghost edges: seq<Edge>)
    returns (best: Option<string>)
    requires Distinct(nodes) && Finds(byId, nodes) && n in nodes && n.cluster == LOOSE
    requires LinksOf(adjacency, n.memory.id) == Links(edges, n.memory.id)
    ensures IsAdopted(edges, Clusters(nodes), n.memory.id, if best.Some? then best.value else LOOSE)
  {
    var weights, order := Weigh(LinksOf(adjacency, n.memory.id), byId, nodes);
    ClustersAt(nodes);
    hide Weighs, Finds, Distinct, Clusters;
    best := Heaviest(weights, order);
    hide Heavier;
    assert order == [] ==> weights == map[] by {
      assert forall c :: c in weights ==> c in order;
    }
    hide Lists;
    AdoptsHeaviest(edges, Clusters(nodes), n.memory.id, weights, best);
  }

  /** The decisions of one round: what is pending are the changes among them. */
  ghost predicate Decides(nodes: seq<Node>, i: nat, next: seq<string>, pending: seq<Placing>)
    requires i <= |nodes|
    reads nodes`cluster
  {
    && |next| == i
    && (forall p :: p in pending ==> exists j :: 0 <= j < i && p == Placing(nodes[j], next[j]))
    && (forall j :: 0 <= j < i && next[j] != nodes[j].cluster ==> Placing(nodes[j], next[j]) in pending)
  }

  lemma DecidesOneMore(nodes: seq<Node>, i: nat, next: seq<string>, pending: seq<Placing>, c: string)
    requires i < |nodes| && Decides(nodes, i, next, pending)
    ensures nodes[i].cluster == c ==> Decides(nodes, i + 1, next + [c], pending)
    ensures Decides(nodes, i + 1, next + [c], pending + [Placing(nodes[i], c)])
  {
    forall p | p in pending ensures exists j :: 0 <= j < i + 1 && p == Placing(nodes[j], (next + [c])[j]) {
      var j :| 0 <= j < i && p == Placing(nodes[j], next[j]);
      assert p == Placing(nodes[j], (next + [c])[j]);
    }
    var last := Placing(nodes[i], c);
    assert last == Placing(nodes[i], (next + [c])[i]);
    assert forall p :: p in pending + [last] <==> p in pending || p == last;
  }

  /** What the first nodes decide, each by the clusters as they are. */
  ghost predicate Adopts(nodes: seq<Node>, edges: seq<Edge>, clusters: map<string, string>, next: seq<string>) {
    |next| <= |nodes| && forall j :: 0 <= j < |next| ==> IsAdopted(edges, clusters, nodes[j].memory.id, next[j])
  }

  lemma AdoptsOneMore(nodes: seq<Node>, edges: seq<Edge>, clusters: map<string, string>, next: seq<string>, c: string)
    requires Adopts(nodes, edges, clusters, next) && |next| < |nodes| && IsAdopted(edges, clusters, nodes[|next|].memory.id, c)
    ensures Adopts(nodes, edges, clusters, next + [c])
  {
    hide IsAdopted;
  }

  /** One round decides for all nodes by the clusters as they are, before any of them changes. */
  method Decide(nodes: seq<Node>, adjacency: map<string, seq<Link>>, byId: map<string, Node>, ghost edges: seq<Edge>)
    returns (pending: seq<Placing>, ghost next: seq<string>)
    requires Distinct(nodes) && Finds(byId, nodes)
    requires Connects(adjacency, edges)
    ensures Decides(nodes, |nodes|, next, pending)
    ensures Adopts(nodes, edges, Clusters(nodes), next)
  {
    pending, next := [], [];
    ClustersAt(nodes);
    hide IsHeaviest, IsOffered, Clusters, Finds, Distinct, LinksOf, Links;
    for i := 0 to |nodes|
      invariant |next| == i
      invariant Decides(nodes, i, next, pending)
      invariant Adopts(nodes, edges, Clusters(nodes), next)
    {
      hide Decides, Adopts, ClusterOf;
      var n := nodes[i];
      ghost var c := n.cluster;
      if n.cluster == LOOSE {
        var best := AdoptOne(n, adjacency, byId, nodes, edges);
        c := if best.Some? then best.value else LOOSE;
        DecidesOneMore(nodes, i, next, pending, c);
        if best.Some? {
          pending := pending + [Placing(n, best.value)];
        }
      } else {
        DecidesOneMore(nodes, i, next, pending, c);
      }
      AdoptsOneMore(nodes, edges, Clusters(nodes), next, c);
      next := next + [c];
    }
  }

  method Apply(nodes: seq<Node>, pending: seq<Placing>, ghost next: seq<string>)
    requires Distinct(nodes) && Decides(nodes, |nodes|, next, pending)
    modifies nodes`cluster
    ensures forall j :: 0 <= j < |nodes| ==> nodes[j].cluster == next[j]
  {
    for a := 0 to |pending|
      invariant forall j :: 0 <= j < |nodes| ==> nodes[j].cluster == next[j] || nodes[j].cluster == old(nodes[j].cluster)
      invariant forall b :: 0 <= b < a ==> pending[b].node.cluster == pending[b].cluster
    {
      var p := pending[a];
      assert p in pending;
      ghost var j :| 0 <= j < |nodes| && p == Placing(nodes[j], next[j]);
      forall b | 0 <= b < a && pending[b].node == p.node ensures pending[b].cluster == p.cluster {
        assert pending[b] in pending;
      }
      p.node.cluster := p.cluster;
    }
    forall j | 0 <= j < |nodes| ensures nodes[j].cluster == next[j] {
      if next[j] != old(nodes[j].cluster) {
        var b :| 0 <= b < |pending| && pending[b] == Placing(nodes[j], next[j]);
      }
    }
  }

  lemma DecidedIsRound(nodes: seq<Node>, edges: seq<Edge>, before: map<string, string>, next: seq<string>)
    requires Distinct(nodes) && Adopts(nodes, edges, before, next) && |next| == |nodes|
    requires forall j :: 0 <= j < |nodes| ==> nodes[j].cluster == next[j]
    ensures IsRound(All(nodes), edges, before, Clusters(nodes))
  {
    hide IsAdopted;
    ClustersAt(nodes);
  }

  method RunRound(nodes: seq<Node>, adjacency: map<string, seq<Link>>, byId: map<string, Node>, ghost edges: seq<Edge>) returns (moved: bool)
    requires Distinct(nodes) && Finds(byId, nodes)
    requires Connects(adjacency, edges)
    modifies nodes`cluster
    ensures IsRound(All(nodes), edges, old(Clusters(nodes)), Clusters(nodes))
    ensures !moved ==> Clusters(nodes) == old(Clusters(nodes))
  {
    var pending;
    ghost var before, next := Clusters(nodes), [];
    pending, next := Decide(nodes, adjacency, byId, edges);
    moved := pending != [];
    hide IsAdopted;
    if moved {
      Apply(nodes, pending, next);
    }
    DecidedIsRound(nodes, edges, before, next);
  }

  lemma OneMoreRound(all: set<Memory>, edges: seq<Edge>, first: map<string, string>, k: nat, before: map<string, string>, after: map<string, string>)
    requires AreRounds(all, edges, first, k, before) && IsRound(all, edges, before, after)
    ensures AreRounds(all, edges, first, k + 1, after)
  {
    hide IsRound;
  }

  lemma {:induction false} RoundsEndEarly(all: set<Memory>, edges: seq<Edge>, first: map<string, string>, k: nat, last: map<string, string>, more: nat)
    requires AreRounds(all, edges, first, k, last) && IsRound(all, edges, last, last) && more >= k
    ensures AreRounds(all, edges, first, more, last)
    decreases more
  {
    hide IsRound;
    if more > k {
      RoundsEndEarly(all, edges, first, k, last, more - 1);
    }
  }

  /** So many rounds lead to these clusters, and if nothing moved another would change nothing. */
  ghost predicate HasRun(all: set<Memory>, edges: seq<Edge>, first: map<string, string>, rounds: nat, moved: bool, clusters: map<string, string>) {
    AreRounds(all, edges, first, rounds, clusters) && (!moved ==> IsRound(all, edges, clusters, clusters))
  }

  lemma RunStarts(all: set<Memory>, edges: seq<Edge>, first: map<string, string>)
    ensures HasRun(all, edges, first, 0, true, first)
  {
  }

  lemma RunGoesOn(all: set<Memory>, edges: seq<Edge>, first: map<string, string>, k: nat, before: map<string, string>, moved: bool, after: map<string, string>)
    requires HasRun(all, edges, first, k, true, before) && IsRound(all, edges, before, after)
    requires !moved ==> after == before
    ensures HasRun(all, edges, first, k + 1, moved, after)
  {
    hide IsRound;
    OneMoreRound(all, edges, first, k, before, after);
  }

  lemma RunEnds(all: set<Memory>, edges: seq<Edge>, first: map<string, string>, k: nat, moved: bool, last: map<string, string>)
    requires HasRun(all, edges, first, k, moved, last) && k <= ROUNDS && (k == ROUNDS || !moved)
    ensures AreRounds(all, edges, first, ROUNDS, last)
  {
    hide IsRound;
    if k < ROUNDS {
      RoundsEndEarly(all, edges, first, k, last, ROUNDS);
    }
  }

  method RunRounds(nodes: seq<Node>, adjacency: map<string, seq<Link>>, byId: map<string, Node>, ghost edges: seq<Edge>)
    requires Distinct(nodes) && Finds(byId, nodes) && Connects(adjacency, edges)
    modifies nodes`cluster
    ensures AreRounds(All(nodes), edges, old(Clusters(nodes)), ROUNDS, Clusters(nodes))
  {
    ghost var all, first := All(nodes), Clusters(nodes);
    var round, moved := 0, true;
    RunStarts(all, edges, first);
    hide AreRounds, HasRun, IsRound, Finds, Distinct, Clusters, All, Connects;
    while round < ROUNDS && moved
      invariant round <= ROUNDS && HasRun(all, edges, first, round, moved, Clusters(nodes))
    {
      ghost var before := Clusters(nodes);
      moved := RunRound(nodes, adjacency, byId, edges);
      RunGoesOn(all, edges, first, round, before, moved, Clusters(nodes));
      round := round + 1;
    }
    RunEnds(all, edges, first, round, moved, Clusters(nodes));
  }

  method Propagate(nodes: seq<Node>, edges: seq<Edge>)
    requires Distinct(nodes)
    modifies nodes`cluster
    ensures AreRounds(All(nodes), edges, old(Clusters(nodes)), ROUNDS, Clusters(nodes))
  {
    hide *;
    var adjacency := Connect(edges);
    var byId := Index(nodes);
    RunRounds(nodes, adjacency, byId, edges);
  }

  // ── The sub-topics ────────────────────────────────────────────────────────

  /** The nodes of a cluster, in order. */
  ghost function Members(nodes: seq<Node>, c: string): seq<Node>
    reads nodes`cluster
  {
    if nodes == [] then []
    else var last := |nodes| - 1; Members(nodes[..last], c) + if nodes[last].cluster == c then [nodes[last]] else []
  }

  lemma {:induction false} MembersAre(nodes: seq<Node>, c: string)
    ensures forall i :: 0 <= i < |Members(nodes, c)| ==> Members(nodes, c)[i] in nodes && Members(nodes, c)[i].cluster == c
    ensures forall i :: 0 <= i < |nodes| && nodes[i].cluster == c ==> nodes[i] in Members(nodes, c)
  {
    if nodes != [] {
      var last := |nodes| - 1;
      var front := nodes[..last];
      MembersAre(front, c);
      assert nodes == front + [nodes[last]];
      forall i | 0 <= i < |nodes| && nodes[i].cluster == c ensures nodes[i] in Members(nodes, c) {
        assert i < last ==> front[i] == nodes[i];
      }
    }
  }

  lemma {:induction false} MembersAreDistinct(nodes: seq<Node>, c: string)
    requires Distinct(nodes)
    ensures Distinct(Members(nodes, c))
  {
    if nodes != [] {
      var last := |nodes| - 1;
      MembersAreDistinct(nodes[..last], c);
      MembersAre(nodes[..last], c);
    }
  }

  lemma MemoriesOfMembers(nodes: seq<Node>, c: string)
    requires Distinct(nodes)
    ensures All(Members(nodes, c)) == set m | m in All(nodes) && ClusterOf(Clusters(nodes), m.id) == c
  {
    MembersAre(nodes, c);
    ClustersAt(nodes);
    hide Clusters, Members, ClusterOf;
    var clusters, members := Clusters(nodes), Members(nodes, c);
    forall m | m in All(members) ensures m in All(nodes) && ClusterOf(clusters, m.id) == c {
      var i :| 0 <= i < |members| && members[i].memory == m;
      var j :| 0 <= j < |nodes| && nodes[j] == members[i];
    }
    forall m | m in All(nodes) && ClusterOf(clusters, m.id) == c ensures m in All(members) {
      var j :| 0 <= j < |nodes| && nodes[j].memory == m;
      assert nodes[j] in members;
    }
  }

  /** Counting tags among the members of a cluster is counting within the cluster. */
  lemma UsesOfMembers(nodes: seq<Node>, c: string, t: string)
    requires Distinct(nodes)
    ensures Uses(All(Members(nodes, c)), t) == UsesWithin(All(nodes), Clusters(nodes), c, t)
  {
    MemoriesOfMembers(nodes, c);
    var all, clusters := All(nodes), Clusters(nodes);
    hide Clusters, Members, ClusterOf, All;
    assert (set m | m in All(Members(nodes, c)) && t in m.tags) == (set m | m in all && ClusterOf(clusters, m.id) == c && t in m.tags);
  }

  /** Counts of uses within a cluster, for any tag but the cluster's own. */
  ghost predicate CountsWithin(all: set<Memory>, clusters: map<string, string>, c: string, within: map<string, nat>) {
    forall t :: t != c ==> Get(within, t) == UsesWithin(all, clusters, c, t)
  }

  lemma StrongerIsOrder(a: nat, d: nat, t: string, b: nat, e: nat, u: string, c: nat, f: nat, v: string)
    ensures Stronger(a, d, t, b, e, u) && Stronger(b, e, u, c, f, v) ==> Stronger(a, d, t, c, f, v)
    ensures t != u ==> Stronger(a, d, t, b, e, u) || Stronger(b, e, u, a, d, t)
  {
    hide Less;
    LessIsTotal(t, u);
    if Less(t, u) && Less(u, v) {
      LessIsTransitive(t, u, v);
    }
  }

  /** One tag ranks before another as a sub-topic of this cluster. */
  ghost predicate Beats(all: set<Memory>, clusters: map<string, string>, c: string, t: string, u: string) {
    Stronger(UsesWithin(all, clusters, c, t), Uses(all, t), t, UsesWithin(all, clusters, c, u), Uses(all, u), u)
  }

  ghost predicate StrongestSoFar(all: set<Memory>, clusters: map<string, string>, m: Memory, k: nat, best: Option<string>)
    requires k <= |m.tags|
  {
    && (best.None? ==> forall i :: 0 <= i < k ==> !IsSubTopic(all, clusters, m, m.tags[i]))
    && (best.Some? ==>
          && IsSubTopic(all, clusters, m, best.value)
          && forall i :: 0 <= i < k && IsSubTopic(all, clusters, m, m.tags[i]) && m.tags[i] != best.value ==>
               Beats(all, clusters, ClusterOf(clusters, m.id), best.value, m.tags[i]))
  }

  lemma StrongestGoesOn(all: set<Memory>, clusters: map<string, string>, m: Memory, k: nat, best: Option<string>)
    requires k < |m.tags| && StrongestSoFar(all, clusters, m, k, best)
    ensures var t := m.tags[k];
      StrongestSoFar(all, clusters, m, k + 1,
        if IsSubTopic(all, clusters, m, t) && (best.None? || Beats(all, clusters, ClusterOf(clusters, m.id), t, best.value)) then Some(t) else best)
  {
    var t, c := m.tags[k], ClusterOf(clusters, m.id);
    if IsSubTopic(all, clusters, m, t) && best.Some? {
      forall i | 0 <= i <= k
        ensures Beats(all, clusters, c, t, best.value) && Beats(all, clusters, c, best.value, m.tags[i]) ==> Beats(all, clusters, c, t, m.tags[i])
        ensures t != best.value ==> Beats(all, clusters, c, t, best.value) || Beats(all, clusters, c, best.value, t)
      {
        hide UsesWithin, Uses, Stronger;
        var u := m.tags[i];
        StrongerIsOrder(UsesWithin(all, clusters, c, t), Uses(all, t), t, UsesWithin(all, clusters, c, best.value), Uses(all, best.value), best.value,
                        UsesWithin(all, clusters, c, u), Uses(all, u), u);
      }
    }
    hide Beats, IsSubTopic, ClusterOf;
  }

  lemma StrongestOfAll(all: set<Memory>, clusters: map<string, string>, m: Memory, best: Option<string>)
    requires StrongestSoFar(all, clusters, m, |m.tags|, best) && ClusterOf(clusters, m.id) != LOOSE
    ensures IsSub(all, clusters, m, best)
  {
    hide UsesWithin, Uses, Stronger, ClusterOf;
  }

  method SubOne(ghost all: set<Memory>, ghost clusters: map<string, string>, m: Memory, outer: string, within: map<string, nat>, counts: map<string, nat>)
    returns (best: Option<string>)
    requires CountsUses(all, counts) && CountsWithin(all, clusters, outer, within)
    requires outer == ClusterOf(clusters, m.id) && outer != LOOSE
    ensures IsSub(all, clusters, m, best)
  {
    best := None;
    for k := 0 to |m.tags|
      invariant StrongestSoFar(all, clusters, m, k, best)
    {
      var t := m.tags[k];
      StrongestGoesOn(all, clusters, m, k, best);
      hide StrongestSoFar, Stronger, UsesWithin, Uses, ClusterOf;
      if t != outer && Get(within, t) >= MIN_SUB && 2 * Get(within, t) >= Get(counts, t) {
        if best.None? || Stronger(Get(within, t), Get(counts, t), t, Get(within, best.value), Get(counts, best.value), best.value) {
          best := Some(t);
        }
      }
    }
    StrongestOfAll(all, clusters, m, best);
  }

  /** The groups of nodes by cluster, loose ones left out, as they come up in the list. */
  ghost predicate Groups(nodes: seq<Node>, order: seq<string>, groups: map<string, seq<Node>>)
    reads nodes`cluster
  {
    && (forall c :: c in groups ==> c != LOOSE && groups[c] == Members(nodes, c))
    && (forall c :: c in order <==> c in groups)
    && (forall i :: 0 <= i < |nodes| && nodes[i].cluster != LOOSE ==> nodes[i].cluster in groups)
  }

  lemma {:induction false} NoMembers(nodes: seq<Node>, c: string)
    requires forall i :: 0 <= i < |nodes| ==> nodes[i].cluster != c
    ensures Members(nodes, c) == []
  {
    if nodes != [] {
      NoMembers(nodes[..|nodes| - 1], c);
    }
  }

  lemma MembersOfOneMore(nodes: seq<Node>, i: nat, c: string)
    requires i < |nodes|
    ensures Members(nodes[..i + 1], c) == Members(nodes[..i], c) + if nodes[i].cluster == c then [nodes[i]] else []
  {
    assert nodes[..i + 1][..i] == nodes[..i];
  }

  lemma AllMembersOfOneMore(nodes: seq<Node>, i: nat)
    requires i < |nodes|
    ensures forall c :: Members(nodes[..i + 1], c) == Members(nodes[..i], c) + if nodes[i].cluster == c then [nodes[i]] else []
  {
    forall c ensures Members(nodes[..i + 1], c) == Members(nodes[..i], c) + if nodes[i].cluster == c then [nodes[i]] else [] {
      MembersOfOneMore(nodes, i, c);
    }
  }

  lemma LooseIsPassedOver(nodes: seq<Node>, i: nat, order: seq<string>, groups: map<string, seq<Node>>)
    requires i < |nodes| && Groups(nodes[..i], order, groups) && nodes[i].cluster == LOOSE
    ensures Groups(nodes[..i + 1], order, groups)
  {
    AllMembersOfOneMore(nodes, i);
    hide Members;
  }

  lemma GroupGrows(nodes: seq<Node>, i: nat, order: seq<string>, groups: map<string, seq<Node>>)
    requires i < |nodes| && Groups(nodes[..i], order, groups) && nodes[i].cluster in groups
    ensures Groups(nodes[..i + 1], order, groups[nodes[i].cluster := groups[nodes[i].cluster] + [nodes[i]]])
  {
    AllMembersOfOneMore(nodes, i);
    hide Members;
  }

  lemma GroupBegins(nodes: seq<Node>, i: nat, order: seq<string>, groups: map<string, seq<Node>>)
    requires i < |nodes| && Groups(nodes[..i], order, groups) && nodes[i].cluster !in groups && nodes[i].cluster != LOOSE
    ensures Groups(nodes[..i + 1], order + [nodes[i].cluster], groups[nodes[i].cluster := [nodes[i]]])
  {
    var c := nodes[i].cluster;
    assert Members(nodes[..i], c) == [] by {
      hide Members;
      NoMembers(nodes[..i], c);
    }
    AllMembersOfOneMore(nodes, i);
    hide Members;
    assert [] + [nodes[i]] == [nodes[i]];
  }

  method Group(nodes: seq<Node>) returns (order: seq<string>, groups: map<string, seq<Node>>)
    modifies nodes`sub
    ensures Groups(nodes, order, groups)
    ensures forall j :: 0 <= j < |nodes| ==> nodes[j].sub == None
  {
    order, groups := [], map[];
    for i := 0 to |nodes|
      invariant Groups(nodes[..i], order, groups)
      invariant forall j :: 0 <= j < i ==> nodes[j].sub == None
    {
      hide Groups;
      var n := nodes[i];
      n.sub := None;
      if n.cluster == LOOSE {
        LooseIsPassedOver(nodes, i, order, groups);
      } else {
        if n.cluster in groups {
          GroupGrows(nodes, i, order, groups);
          groups := groups[n.cluster := groups[n.cluster] + [n]];
        } else {
          GroupBegins(nodes, i, order, groups);
          order, groups := order + [n.cluster], groups[n.cluster := [n]];
        }
      }
    }
    assert nodes[..|nodes|] == nodes;
  }

  lemma MembersAreGraph(nodes: seq<Node>, c: string)
    requires IsGraph(nodes)
    ensures IsGraph(Members(nodes, c))
  {
    MembersAre(nodes, c);
    MembersAreDistinct(nodes, c);
    hide Members;
    var members := Members(nodes, c);
    forall i | 0 <= i < |members| ensures Proper(members[i].memory) {
      assert members[i] in nodes;
    }
  }

  method CountMembers(ghost nodes: seq<Node>, members: seq<Node>, outer: string) returns (within: map<string, nat>)
    requires IsGraph(nodes) && members == Members(nodes, outer)
    ensures CountsWithin(All(nodes), Clusters(nodes), outer, within)
  {
    MembersAreGraph(nodes, outer);
    within := CountTags(members, Some(outer));
    forall t | t != outer ensures Get(within, t) == UsesWithin(All(nodes), Clusters(nodes), outer, t) {
      UsesOfMembers(nodes, outer, t);
    }
  }

  /** The sub-topics of one cluster's members. */
  method SubsOfMembers(members: seq<Node>, outer: string, within: map<string, nat>, counts: map<string, nat>,
                       ghost all: set<Memory>, ghost clusters: map<string, string>)
    requires CountsUses(all, counts) && CountsWithin(all, clusters, outer, within) && outer != LOOSE && Distinct(members)
    requires forall k :: 0 <= k < |members| ==> ClusterOf(clusters, members[k].memory.id) == outer
    modifies members`sub
    ensures forall k :: 0 <= k < |members| ==> IsSub(all, clusters, members[k].memory, members[k].sub)
  {
    hide CountsUses, CountsWithin, ClusterOf, IsSub;
    for k := 0 to |members|
      invariant forall b :: 0 <= b < k ==> IsSub(all, clusters, members[b].memory, members[b].sub)
    {
      members[k].sub := SubOne(all, clusters, members[k].memory, outer, within, counts);
    }
  }

  /** The nodes of these clusters have their sub-topics, and loose ones have none. */
  ghost predicate HaveSubs(nodes: seq<Node>, all: set<Memory>, clusters: map<string, string>, done: seq<string>)
    reads nodes`cluster, nodes`sub
  {
    && (forall j :: 0 <= j < |nodes| && nodes[j].cluster in done ==> IsSub(all, clusters, nodes[j].memory, nodes[j].sub))
    && (forall j :: 0 <= j < |nodes| && nodes[j].cluster == LOOSE ==> nodes[j].sub == None)
  }

  lemma MembersInClusters(nodes: seq<Node>, c: string)
    requires Distinct(nodes)
    ensures forall k :: 0 <= k < |Members(nodes, c)| ==> ClusterOf(Clusters(nodes), Members(nodes, c)[k].memory.id) == c
  {
    MembersAre(nodes, c);
    ClustersAt(nodes);
    hide Members, Clusters, ClusterOf;
    forall k | 0 <= k < |Members(nodes, c)| ensures ClusterOf(Clusters(nodes), Members(nodes, c)[k].memory.id) == c {
      var i :| 0 <= i < |nodes| && nodes[i] == Members(nodes, c)[k];
    }
  }

  method SubsOfNext(nodes: seq<Node>, members: seq<Node>, outer: string, counts: map<string, nat>, ghost done: seq<string>)
    requires IsGraph(nodes) && members == Members(nodes, outer) && outer != LOOSE && CountsUses(All(nodes), counts)
    requires HaveSubs(nodes, All(nodes), Clusters(nodes), done)
    modifies nodes`sub
    ensures HaveSubs(nodes, All(nodes), Clusters(nodes), done + [outer])
  {
    ghost var all, clusters := All(nodes), Clusters(nodes);
    var within := CountMembers(nodes, members, outer);
    MembersAre(nodes, outer);
    MembersInClusters(nodes, outer);
    MembersAreDistinct(nodes, outer);
    hide IsSub, CountsUses, CountsWithin, Members, Clusters, ClusterOf, All, Distinct;
    SubsOfMembers(members, outer, within, counts, all, clusters);
    forall j | 0 <= j < |nodes| && nodes[j].cluster == outer ensures IsSub(all, clusters, nodes[j].memory, nodes[j].sub) {
      assert nodes[j] in members;
    }
  }

  lemma AllHaveSubs(nodes: seq<Node>, order: seq<string>, groups: map<string, seq<Node>>)
    requires Distinct(nodes) && Groups(nodes, order, groups) && HaveSubs(nodes, All(nodes), Clusters(nodes), order)
    ensures AreSubs(All(nodes), Clusters(nodes), Subs(nodes))
  {
    ClustersAt(nodes);
    SubsAt(nodes);
    hide IsSubTopic, IsStrongest, Clusters, Subs, Members;
    forall j | 0 <= j < |nodes| ensures IsSub(All(nodes), Clusters(nodes), nodes[j].memory, nodes[j].sub) {
      assert nodes[j].cluster != LOOSE ==> nodes[j].cluster in order;
    }
    hide IsSub, HaveSubs, Groups;
  }

  method SubsOfGroups(nodes: seq<Node>, order: seq<string>, groups: map<string, seq<Node>>, counts: map<string, nat>)
    requires IsGraph(nodes) && CountsUses(All(nodes), counts) && Groups(nodes, order, groups)
    requires HaveSubs(nodes, All(nodes), Clusters(nodes), [])
    modifies nodes`sub
    ensures HaveSubs(nodes, All(nodes), Clusters(nodes), order)
  {
    ghost var all, clusters := All(nodes), Clusters(nodes);
    for a := 0 to |order|
      invariant HaveSubs(nodes, all, clusters, order[..a])
    {
      var outer := order[a];
      assert outer in order && order[..a + 1] == order[..a] + [outer];
      hide HaveSubs, CountsUses, IsGraph, Members, Clusters, All;
      SubsOfNext(nodes, groups[outer], outer, counts, order[..a]);
    }
    assert order[..|order|] == order;
  }

  method AssignSubs(nodes: seq<Node>, counts: map<string, nat>)
    requires IsGraph(nodes) && CountsUses(All(nodes), counts)
    modifies nodes`sub
    ensures AreSubs(All(nodes), Clusters(nodes), Subs(nodes))
  {
    var order, groups := Group(nodes);
    assert HaveSubs(nodes, All(nodes), Clusters(nodes), []);
    hide HaveSubs, CountsUses, Clusters, Subs, All, Groups, AreSubs;
    SubsOfGroups(nodes, order, groups, counts);
    AllHaveSubs(nodes, order, groups);
  }

  /** Every node holds its cluster and sub-topic of the outcome. */
  ghost predicate IsWritten(nodes: seq<Node>, o: Outcome)
    reads nodes`cluster, nodes`sub
  {
    forall i :: 0 <= i < |nodes| ==>
      nodes[i].cluster == ClusterOf(o.clusters, nodes[i].memory.id) && nodes[i].sub == SubOf(o.subs, nodes[i].memory.id)
  }

  /**
   The whole pass over the graph, each node's cluster and sub-topic written in place; `o` is what
   the passes left.
   */
  method AssignGraphClusters(nodes: seq<Node>, edges: seq<Edge>) returns (ghost o: Outcome)
    requires IsGraph(nodes)
    modifies nodes
    ensures Clustered(All(nodes), edges, o)
    ensures IsWritten(nodes, o)
  {
    var counts := CountTags(nodes, None);
    assert CountsUses(All(nodes), counts);
    hide CountsUses, ArePicks, AreFolds, AreRounds, AreSubs;
    PickClusters(nodes, counts);
    ghost var picks := Clusters(nodes);
    FoldClusters(nodes);
    ghost var folded := Clusters(nodes);
    Propagate(nodes, edges);
    AssignSubs(nodes, counts);
    o := Outcome(picks, folded, Clusters(nodes), Subs(nodes));
    ClustersAt(nodes);
    SubsAt(nodes);
  }

  function MemoriesOf(nodes: seq<Node>): seq<Memory> {
    seq(|nodes|, i requires 0 <= i < |nodes| => nodes[i].memory)
  }

  lemma SameMemories(nodes: seq<Node>, others: seq<Node>)
    requires multiset(MemoriesOf(nodes)) == multiset(MemoriesOf(others))
    ensures All(nodes) <= All(others)
  {
    forall m | m in All(nodes) ensures m in All(others) {
      var i :| 0 <= i < |nodes| && nodes[i].memory == m;
      assert MemoriesOf(nodes)[i] == m && m in multiset(MemoriesOf(others));
      var j :| 0 <= j < |others| && MemoriesOf(others)[j] == m;
      assert others[j] in others;
    }
  }

  /**
   After two runs over the same memories and edges, each in any order, every memory has the same
   cluster and the same sub-topic in both.
   */
  lemma RunsAgree(nodes: seq<Node>, edges: seq<Edge>, o: Outcome, others: seq<Node>, edges': seq<Edge>, r: Outcome)
    requires multiset(MemoriesOf(nodes)) == multiset(MemoriesOf(others)) && multiset(edges) == multiset(edges')
    requires Clustered(All(nodes), edges, o) && IsWritten(nodes, o)
    requires Clustered(All(others), edges', r) && IsWritten(others, r)
    ensures forall i, j :: 0 <= i < |nodes| && 0 <= j < |others| && nodes[i].memory.id == others[j].memory.id ==>
      nodes[i].cluster == others[j].cluster && nodes[i].sub == others[j].sub
  {
    SameMemories(nodes, others);
    SameMemories(others, nodes);
    assert All(nodes) == All(others);
    hide Clustered, All, MemoriesOf, ClusterOf, SubOf;
    OrderDoesNotMatter(All(nodes), edges, edges', o, r);
  }
}
