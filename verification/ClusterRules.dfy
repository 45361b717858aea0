/**
 What grouping the graph's memories into topic clusters comes to (public/utils.js,
 assignGraphClusters), said of the set of memories and the bag of edges: the pick by tags, the fold
 of tiny clusters, three rounds along the edges, and the sub-topics.
 */
module ClusterRules {
  import opened Options
  import opened JsText

  const LOOSE := "__loose__"
  const MIN_CLUSTER_SIZE := 2
  const MIN_SUB := 2

  /**
   A node of the graph: its tags are those left when system tags are taken out, each once, in the
   node's own order; its project is the first one its project tags name.
   */
  datatype Memory = Memory(id: string, tags: seq<string>, project: Option<string>)

  datatype Edge = Edge(source: string, target: string, weight: Option<real>)

  predicate Proper(m: Memory) {
    && (forall i, j :: 0 <= i < j < |m.tags| ==> m.tags[i] != m.tags[j])
    && LOOSE !in m.tags && (m.project.Some? ==> m.project.value != LOOSE)
  }

  ghost predicate ProperGraph(all: set<Memory>) {
    && (forall m :: m in all ==> Proper(m))
    && (forall m, k :: m in all && k in all && m.id == k.id ==> m == k)
  }

  /** A missing or zero weight is 1. */
  function WeightOf(e: Edge): real {
    if e.weight.None? || e.weight.value == 0.0 then 1.0 else e.weight.value
  }

  /** The cluster of a node in an assignment; an unknown node has none. */
  function ClusterOf(clusters: map<string, string>, id: string): string {
    if id in clusters then clusters[id] else LOOSE
  }

  // ── The pick ──────────────────────────────────────────────────────────────

  predicate IsAxis(t: string) {
    || t == "personal" || t == "work" || t == "task" || t == "idea" || t == "context"
    || t == "claude-response" || t == "codex-response" || t == "cursor-response"
  }

  function Uses(all: set<Memory>, t: string): nat {
    |set m | m in all && t in m.tags|
  }

  /**
   How far d uses are from the square root of n, as a ratio of squares: it orders numbers of uses as
   |log(d / sqrt(n))| does.
   */
  function Distance(d: nat, n: nat): real {
    if d == 0 || n == 0 then 0.0
    else if d * d >= n then (d * d) as real / n as real else n as real / (d * d) as real
  }

  /** Tags as the pick ranks them: nearer first, then by name. */
  predicate Nearer(d: nat, t: string, e: nat, u: string, n: nat) {
    Distance(d, n) < Distance(e, n) || (Distance(d, n) == Distance(e, n) && Less(t, u))
  }

  predicate Eligible(all: set<Memory>, m: Memory, axis: bool, t: string) {
    t in m.tags && (axis || !IsAxis(t)) && Uses(all, t) >= MIN_CLUSTER_SIZE
  }

  ghost predicate IsNearest(all: set<Memory>, m: Memory, axis: bool, c: string) {
    && Eligible(all, m, axis, c)
    && forall u :: Eligible(all, m, axis, u) && u != c ==> Nearer(Uses(all, c), c, Uses(all, u), u, |all|)
  }

  ghost predicate HasEligible(all: set<Memory>, m: Memory, axis: bool) {
    exists t :: Eligible(all, m, axis, t)
  }

  ghost predicate IsPick(all: set<Memory>, m: Memory, c: string) {
    if m.project.Some? then c == m.project.value
    else if HasEligible(all, m, false) then IsNearest(all, m, false, c)
    else if HasEligible(all, m, true) then IsNearest(all, m, true, c)
    else c == LOOSE
  }

  // ── The fold ──────────────────────────────────────────────────────────────

  function MinOuter(n: nat): nat {
    var percent := (n + 50) / 100;
    if percent > 3 then percent else 3
  }

  function Size(all: set<Memory>, clusters: map<string, string>, c: string): nat {
    |set m | m in all && ClusterOf(clusters, m.id) == c|
  }

  predicate IsSettled(all: set<Memory>, picks: map<string, string>, m: Memory) {
    var c := ClusterOf(picks, m.id);
    c == LOOSE || m.project.Some? || Size(all, picks, c) >= MinOuter(|all|)
  }

  predicate IsRefuge(all: set<Memory>, picks: map<string, string>, m: Memory, t: string) {
    t in m.tags && t != ClusterOf(picks, m.id) && Size(all, picks, t) >= MinOuter(|all|)
  }

  /** The k-th tag is the refuge taken: none before it is as large, none after it larger. */
  ghost predicate IsLargest(all: set<Memory>, picks: map<string, string>, m: Memory, k: nat) {
    && k < |m.tags| && IsRefuge(all, picks, m, m.tags[k])
    && (forall j :: 0 <= j < k && IsRefuge(all, picks, m, m.tags[j]) ==> Size(all, picks, m.tags[j]) < Size(all, picks, m.tags[k]))
    && (forall j :: k < j < |m.tags| && IsRefuge(all, picks, m, m.tags[j]) ==> Size(all, picks, m.tags[j]) <= Size(all, picks, m.tags[k]))
  }

  ghost predicate IsFold(all: set<Memory>, picks: map<string, string>, m: Memory, c: string) {
    if IsSettled(all, picks, m) then c == ClusterOf(picks, m.id)
    else if exists t :: IsRefuge(all, picks, m, t) then exists k: nat | k < |m.tags| :: IsLargest(all, picks, m, k) && c == m.tags[k]
    else c == LOOSE
  }

  // ── The rounds ────────────────────────────────────────────────────────────

  /** What one edge adds for a node to the weight of a cluster. */
  function Pull(e: Edge, clusters: map<string, string>, id: string, c: string): real {
    (if e.source == id && ClusterOf(clusters, e.target) == c then WeightOf(e) else 0.0)
    + (if e.target == id && ClusterOf(clusters, e.source) == c then WeightOf(e) else 0.0)
  }

  function Weight(edges: seq<Edge>, clusters: map<string, string>, id: string, c: string): real {
    if edges == [] then 0.0
    else Weight(edges[..|edges| - 1], clusters, id, c) + Pull(edges[|edges| - 1], clusters, id, c)
  }

  predicate Joins(e: Edge, a: string, b: string) {
    (e.source == a && e.target == b) || (e.target == a && e.source == b)
  }

  ghost predicate Adjacent(edges: seq<Edge>, a: string, b: string) {
    exists e :: e in edges && Joins(e, a, b)
  }

  /** The cluster is that of a neighbour. */
  ghost predicate IsOffered(edges: seq<Edge>, clusters: map<string, string>, id: string, c: string) {
    c != LOOSE && exists other :: Adjacent(edges, id, other) && ClusterOf(clusters, other) == c
  }

  ghost predicate IsHeaviest(edges: seq<Edge>, clusters: map<string, string>, id: string, c: string) {
    && IsOffered(edges, clusters, id, c)
    && forall d :: IsOffered(edges, clusters, id, d) && d != c ==>
         Weight(edges, clusters, id, d) < Weight(edges, clusters, id, c)
         || (Weight(edges, clusters, id, d) == Weight(edges, clusters, id, c) && Less(c, d))
  }

  ghost predicate IsAdopted(edges: seq<Edge>, clusters: map<string, string>, id: string, c: string) {
    if ClusterOf(clusters, id) != LOOSE then c == ClusterOf(clusters, id)
    else if exists d :: IsOffered(edges, clusters, id, d) then IsHeaviest(edges, clusters, id, c)
    else c == LOOSE
  }

  // ── The sub-topics ────────────────────────────────────────────────────────

  function UsesWithin(all: set<Memory>, clusters: map<string, string>, c: string, t: string): nat {
    |set m | m in all && ClusterOf(clusters, m.id) == c && t in m.tags|
  }

  predicate IsSubTopic(all: set<Memory>, clusters: map<string, string>, m: Memory, t: string) {
    var c := ClusterOf(clusters, m.id);
    t in m.tags && t != c && UsesWithin(all, clusters, c, t) >= MIN_SUB && 2 * UsesWithin(all, clusters, c, t) >= Uses(all, t)
  }

  /** Sub-topics as they are ranked: more uses within, then fewer in all, then by name. */
  predicate Stronger(w: nat, d: nat, t: string, x: nat, e: nat, u: string) {
    w > x || (w == x && (d < e || (d == e && Less(t, u))))
  }

  ghost predicate IsStrongest(all: set<Memory>, clusters: map<string, string>, m: Memory, t: string) {
    var c := ClusterOf(clusters, m.id);
    && IsSubTopic(all, clusters, m, t)
    && forall u :: IsSubTopic(all, clusters, m, u) && u != t ==>
         Stronger(UsesWithin(all, clusters, c, t), Uses(all, t), t, UsesWithin(all, clusters, c, u), Uses(all, u), u)
  }

  ghost predicate IsSub(all: set<Memory>, clusters: map<string, string>, m: Memory, sub: Option<string>) {
    if ClusterOf(clusters, m.id) == LOOSE then sub == None
    else if exists t :: IsSubTopic(all, clusters, m, t) then sub.Some? && IsStrongest(all, clusters, m, sub.value)
    else sub == None
  }

  // ── The whole ─────────────────────────────────────────────────────────────

  ghost function Ids(all: set<Memory>): set<string> {
    set m | m in all :: m.id
  }

  ghost predicate ArePicks(all: set<Memory>, picks: map<string, string>) {
    picks.Keys == Ids(all) && forall m :: m in all ==> IsPick(all, m, ClusterOf(picks, m.id))
  }

  ghost predicate AreFolds(all: set<Memory>, picks: map<string, string>, folded: map<string, string>) {
    folded.Keys == Ids(all) && forall m :: m in all ==> IsFold(all, picks, m, ClusterOf(folded, m.id))
  }

  ghost predicate IsRound(all: set<Memory>, edges: seq<Edge>, before: map<string, string>, after: map<string, string>) {
    after.Keys == Ids(all) && forall m :: m in all ==> IsAdopted(edges, before, m.id, ClusterOf(after, m.id))
  }

  ghost predicate AreSubs(all: set<Memory>, clusters: map<string, string>, subs: map<string, Option<string>>) {
    subs.Keys == Ids(all) && forall m :: m in all ==> IsSub(all, clusters, m, subs[m.id])
  }

  /** The rounds, one after the other. */
  ghost predicate AreRounds(all: set<Memory>, edges: seq<Edge>, first: map<string, string>, rounds: nat, last: map<string, string>) {
    if rounds == 0 then last == first
    else exists before :: AreRounds(all, edges, first, rounds - 1, before) && IsRound(all, edges, before, last)
  }

  /** One run of the clusterer, seen from outside: what each pass left. */
  datatype Outcome = Outcome(picks: map<string, string>, folded: map<string, string>, clusters: map<string, string>,
                             subs: map<string, Option<string>>)

  const ROUNDS := 3

  ghost predicate Clustered(all: set<Memory>, edges: seq<Edge>, o: Outcome) {
    && ArePicks(all, o.picks) && AreFolds(all, o.picks, o.folded)
    && AreRounds(all, edges, o.folded, ROUNDS, o.clusters)
    && AreSubs(all, o.clusters, o.subs)
  }
}
