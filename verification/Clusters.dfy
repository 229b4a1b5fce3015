/** Connected components of the thresholded co-trade graph (analysis/wallet_graph.py, detect_clusters). */
module Clusters {
  import opened CoTrades

  type Graph<!W(==)> = map<W, set<W>>

  type Relation<!W> = (W, W) -> bool

  /** The undirected edges: pairs whose matrix entry reaches the threshold. */
  function Edges<W(==)>(m: map<(W, W), int>, minCoTrades: int): Relation<W> {
    (u, v) => ((u, v) in m && m[(u, v)] >= minCoTrades) || ((v, u) in m && m[(v, u)] >= minCoTrades)
  }

  ghost predicate Symmetric<W(!new)>(edge: Relation<W>) {
    forall u, v :: edge(u, v) ==> edge(v, u)
  }

  ghost predicate Path<W(!new)>(edge: Relation<W>, p: seq<W>) {
    |p| > 0 && forall i, j | 0 <= i < j < |p| && j == i + 1 :: edge(p[i], p[j])
  }

  ghost predicate Joins<W(!new)>(edge: Relation<W>, p: seq<W>, u: W, v: W) {
    Path(edge, p) && p[0] == u && p[|p| - 1] == v
  }

  ghost predicate Connected<W(!new)>(edge: Relation<W>, u: W, v: W) {
    exists p :: Joins(edge, p, u, v)
  }

  ghost predicate LabelsBelow<W>(clusters: map<W, int>, k: nat) {
    forall id :: id in clusters.Values <==> 0 <= id < k
  }

  /** What cluster detection promises: the labelled wallets are exactly the endpoints of edges, a
      wallet shares a label with exactly the wallets a path reaches, and the labels are 0..k-1. */
  ghost predicate IsClustering<W(!new)>(clusters: map<W, int>, edge: Relation<W>) {
    && LabelsEndpoints(clusters, edge)
    && LabelsComponents(clusters, edge)
    && exists k: nat :: LabelsBelow(clusters, k)
  }

  ghost predicate LabelsEndpoints<W(!new)>(clusters: map<W, int>, edge: Relation<W>) {
    forall u {:trigger HasEdge(edge, u)} :: u in clusters <==> HasEdge(edge, u)
  }

  ghost predicate HasEdge<W(!new)>(edge: Relation<W>, u: W) {
    exists v :: edge(u, v)
  }

  ghost predicate LabelsComponents<W(!new)>(clusters: map<W, int>, edge: Relation<W>) {
    forall u, v | u in clusters ::
      (v in clusters && clusters[u] == clusters[v]) <==> Connected(edge, u, v)
  }

  // ---- Connectedness is an equivalence ----

  lemma ConnectedRefl<W(!new)>(edge: Relation<W>, u: W)
    ensures Connected(edge, u, u)
  {
    assert Joins(edge, [u], u, u);
  }

  lemma ConnectedSym<W(!new)>(edge: Relation<W>, u: W, v: W)
    requires Symmetric(edge) && Connected(edge, u, v)
    ensures Connected(edge, v, u)
  {
    var p :| Joins(edge, p, u, v);
    var q := seq(|p|, i requires 0 <= i < |p| => p[|p| - 1 - i]);
    forall i | 0 <= i < |q| - 1
      ensures edge(q[i], q[i + 1])
    {
      assert edge(p[|p| - 2 - i], p[|p| - 2 - i + 1]);
    }
    assert Joins(edge, q, v, u);
  }

  lemma ConnectedTrans<W(!new)>(edge: Relation<W>, u: W, v: W, w: W)
    requires Connected(edge, u, v) && Connected(edge, v, w)
    ensures Connected(edge, u, w)
  {
    var p :| Joins(edge, p, u, v);
    var q :| Joins(edge, q, v, w);
    var r := p + q[1..];
    forall i | 0 <= i < |r| - 1
      ensures edge(r[i], r[i + 1])
    {
      if i >= |p| - 1 {
        assert r[i] == q[i - |p| + 1] && r[i + 1] == q[i - |p| + 1 + 1];
      }
    }
    assert Joins(edge, r, u, w);
  }

  lemma EdgeConnects<W(!new)>(edge: Relation<W>, u: W, v: W, w: W)
    requires Connected(edge, u, v) && edge(v, w)
    ensures Connected(edge, u, w)
  {
    assert Joins(edge, [v, w], v, w);
    ConnectedTrans(edge, u, v, w);
  }

  // ---- Building the adjacency sets ----

  ghost predicate IsGraph<W(!new)>(g: Graph<W>, edge: Relation<W>) {
    forall u, v :: (u in g && v in g[u]) <==> edge(u, v)
  }

  ghost predicate NoIsolated<W>(g: Graph<W>) {
    forall u {:trigger HasNeighbor(g, u)} | u in g :: HasNeighbor(g, u)
  }

  ghost predicate HasNeighbor<W>(g: Graph<W>, u: W) {
    u in g && exists v :: v in g[u]
  }

  function AddNeighbor<W(==)>(g: Graph<W>, a: W, b: W): Graph<W> {
    g[a := (if a in g then g[a] else {}) + {b}]
  }

  method BuildGraph<W(==,!new)>(m: map<(W, W), int>, minCoTrades: int) returns (g: Graph<W>)
    ensures IsGraph(g, Edges(m, minCoTrades)) && NoIsolated(g)
  {
    g := map[];
    var pending := m.Keys;
    ghost var seen: map<(W, W), int> := map[];
    while pending != {}
      invariant pending !! seen.Keys && pending + seen.Keys == m.Keys
      invariant forall k | k in seen :: seen[k] == m[k]
      invariant IsGraph(g, Edges(seen, minCoTrades)) && NoIsolated(g)
    {
      var key :| key in pending;
      var (a, b) := key;
      EdgeAdded(g, seen, minCoTrades, a, b, m[key]);
      pending := pending - {key};
      seen := seen[key := m[key]];
      if m[key] >= minCoTrades {
        NeighborAdded(g, a, b);
        NeighborAdded(AddNeighbor(g, a, b), b, a);
        g := AddNeighbor(AddNeighbor(g, a, b), b, a);
      }
    }
    assert seen == m;
  }

  lemma NeighborAdded<W(!new)>(g: Graph<W>, a: W, b: W)
    requires NoIsolated(g)
    ensures NoIsolated(AddNeighbor(g, a, b))
  {
    var g' := AddNeighbor(g, a, b);
    forall u | u in g'
      ensures HasNeighbor(g', u)
    {
      if u == a {
        assert b in g'[u];
      } else {
        assert HasNeighbor(g, u) && g'[u] == g[u];
      }
    }
  }

  lemma EdgeAdded<W(!new)>(g: Graph<W>, seen: map<(W, W), int>, minCoTrades: int, a: W, b: W, count: int)
    requires IsGraph(g, Edges(seen, minCoTrades)) && (a, b) !in seen
    ensures var g' := if count >= minCoTrades then AddNeighbor(AddNeighbor(g, a, b), b, a) else g;
            IsGraph(g', Edges(seen[(a, b) := count], minCoTrades))
  {
    var edge, edge' := Edges(seen, minCoTrades), Edges(seen[(a, b) := count], minCoTrades);
    assert forall u, v :: edge'(u, v) <==>
                          edge(u, v) || (count >= minCoTrades && ((u == a && v == b) || (u == b && v == a)));
    if count >= minCoTrades {
      var g' := AddNeighbor(AddNeighbor(g, a, b), b, a);
      forall u, v
        ensures (u in g' && v in g'[u]) <==> edge'(u, v)
      {
        assert (u in g && v in g[u]) <==> edge(u, v);
      }
    }
  }

  // ---- Breadth-first labelling ----

  /** Every labelled wallet outside `open` carries its label over each of its edges. */
  ghost predicate ClosedExcept<W(!new)>(clusters: map<W, int>, edge: Relation<W>, open: seq<W>) {
    forall u, v | u in clusters && u !in open && edge(u, v) :: v in clusters && clusters[v] == clusters[u]
  }

  /** Each label in use names a root that carries it and that reaches every wallet so labelled. */
  ghost predicate Rooted<W(!new)>(clusters: map<W, int>, edge: Relation<W>, roots: seq<W>) {
    && (forall u | u in clusters ::
          0 <= clusters[u] < |roots| && Connected(edge, roots[clusters[u]], u))
    && (forall id | 0 <= id < |roots| :: roots[id] in clusters && clusters[roots[id]] == id)
  }

  /** The state between two turns of the search for the component numbered `|roots| - 1`. */
  ghost predicate Searching<W(!new)>(clusters: map<W, int>, queue: seq<W>, edge: Relation<W>, roots: seq<W>) {
    && Rooted(clusters, edge, roots)
    && ClosedExcept(clusters, edge, queue)
    && forall u | u in queue :: u in clusters && clusters[u] == |roots| - 1
  }

  lemma LabelNeighbor<W(!new)>(clusters: map<W, int>, queue: seq<W>, edge: Relation<W>, roots: seq<W>,
                      current: W, neighbor: W)
    requires Symmetric(edge) && Searching(clusters, [current] + queue, edge, roots)
    requires edge(current, neighbor)
    ensures neighbor in clusters ==> clusters[neighbor] == |roots| - 1
    ensures neighbor !in clusters ==>
              Searching(clusters[neighbor := |roots| - 1], [current] + (queue + [neighbor]), edge, roots)
  {
    assert current in [current] + queue;
    if neighbor !in clusters {
      EdgeConnects(edge, roots[|roots| - 1], current, neighbor);
      assert [current] + (queue + [neighbor]) == [current] + queue + [neighbor];
    } else if neighbor !in [current] + queue {
      assert edge(neighbor, current);
    }
  }

  /** One turn of the search: label the unvisited neighbours of the wallet at the head of the queue. */
  method Visit<W(==,!new)>(g: Graph<W>, ghost edge: Relation<W>, clusters0: map<W, int>, queue0: seq<W>,
               clusterId: int, ghost roots: seq<W>)
    returns (clusters: map<W, int>, queue: seq<W>)
    requires IsGraph(g, edge) && Symmetric(edge)
    requires queue0 != [] && clusterId == |roots| - 1
    requires Searching(clusters0, queue0, edge, roots) && clusters0.Keys <= g.Keys
    ensures Searching(clusters, queue, edge, roots) && clusters0.Keys <= clusters.Keys <= g.Keys
    ensures clusters.Keys == clusters0.Keys ==> |queue| < |queue0|
  {
    clusters := clusters0;
    var current := queue0[0];
    queue := queue0[1..];
    var neighbors := if current in g then g[current] else {};
    var rest := neighbors;
    assert [current] + queue == queue0;
    while rest != {}
      invariant rest <= neighbors
      invariant clusters0.Keys <= clusters.Keys <= g.Keys
      invariant clusters.Keys == clusters0.Keys ==> queue == queue0[1..]
      invariant Searching(clusters, [current] + queue, edge, roots)
      invariant forall v | v in neighbors && v !in rest :: v in clusters && clusters[v] == clusterId
    {
      var neighbor :| neighbor in rest;
      rest := rest - {neighbor};
      assert edge(current, neighbor) && edge(neighbor, current);
      LabelNeighbor(clusters, queue, edge, roots, current, neighbor);
      if neighbor !in clusters {
        assert neighbor in g;
        clusters := clusters[neighbor := clusterId];
        queue := queue + [neighbor];
      }
    }
    HeadDone(clusters, queue, edge, roots, current, neighbors);
  }

  lemma HeadDone<W(!new)>(clusters: map<W, int>, queue: seq<W>, edge: Relation<W>, roots: seq<W>,
                 current: W, neighbors: set<W>)
    requires Searching(clusters, [current] + queue, edge, roots)
    requires forall v | edge(current, v) :: v in neighbors
    requires forall v | v in neighbors :: v in clusters && clusters[v] == |roots| - 1
    ensures Searching(clusters, queue, edge, roots)
  {
    forall u, v | u in clusters && u !in queue && edge(u, v)
      ensures v in clusters && clusters[v] == clusters[u]
    {
      if u == current {
        assert current in [current] + queue;
      } else {
        assert u !in [current] + queue;
      }
    }
    forall u | u in queue
      ensures u in clusters && clusters[u] == |roots| - 1
    {
      assert u in [current] + queue;
    }
  }

  /** Breadth-first search from one root. Each turn labels a new wallet or shortens the queue. */
  method Search<W(==,!new)>(g: Graph<W>, ghost edge: Relation<W>, clusters0: map<W, int>, wallet: W,
                            clusterId: int, ghost roots: seq<W>)
    returns (clusters: map<W, int>)
    requires IsGraph(g, edge) && Symmetric(edge)
    requires clusterId == |roots| - 1
    requires Searching(clusters0, [wallet], edge, roots) && clusters0.Keys <= g.Keys
    ensures Searching(clusters, [], edge, roots) && clusters0.Keys <= clusters.Keys <= g.Keys
  {
    clusters := clusters0;
    var queue := [wallet];
    while queue != []
      invariant clusters0.Keys <= clusters.Keys <= g.Keys
      invariant Searching(clusters, queue, edge, roots)
      decreases g.Keys - clusters.Keys, |queue|
    {
      clusters, queue := Visit(g, edge, clusters, queue, clusterId, roots);
    }
  }

  method DetectClusters<W(==,!new)>(m: map<(W, W), int>, minCoTrades: int) returns (clusters: map<W, int>)
    ensures IsClustering(clusters, Edges(m, minCoTrades))
  {
    var graph := BuildGraph(m, minCoTrades);
    clusters := map[];
    var clusterId := 0;
    var pending := graph.Keys;
    ghost var edge, roots: seq<W> := Edges(m, minCoTrades), [];
    assert Symmetric(edge);
    while pending != {}
      invariant pending <= graph.Keys
      invariant graph.Keys - pending <= clusters.Keys <= graph.Keys
      invariant clusterId == |roots|
      invariant Searching(clusters, [], edge, roots)
    {
      var wallet :| wallet in pending;
      pending := pending - {wallet};
      if wallet in clusters {
        continue;
      }
      NewRoot(clusters, edge, roots, wallet);
      roots := roots + [wallet];
      clusters := Search(graph, edge, clusters[wallet := clusterId], wallet, clusterId, roots);
      clusterId := clusterId + 1;
    }
    LabelsAreExact(clusters, graph, edge, roots);
  }

  lemma NewRoot<W(!new)>(clusters: map<W, int>, edge: Relation<W>, roots: seq<W>, wallet: W)
    requires Searching(clusters, [], edge, roots) && wallet !in clusters
    ensures Searching(clusters[wallet := |roots|], [wallet], edge, roots + [wallet])
  {
    ConnectedRefl(edge, wallet);
    var clusters', roots' := clusters[wallet := |roots|], roots + [wallet];
    forall u | u in clusters'
      ensures 0 <= clusters'[u] < |roots'| && Connected(edge, roots'[clusters'[u]], u)
    {
      assert u == wallet || roots'[clusters[u]] == roots[clusters[u]];
    }
  }

  lemma {:induction false} PathKeepsLabel<W(!new)>(clusters: map<W, int>, edge: Relation<W>, p: seq<W>)
    requires ClosedExcept(clusters, edge, [])
    requires Path(edge, p) && p[0] in clusters
    ensures p[|p| - 1] in clusters && clusters[p[|p| - 1]] == clusters[p[0]]
  {
    if |p| > 1 {
      assert edge(p[0], p[0 + 1]);
      forall i | 0 <= i < |p[1..]| - 1
        ensures edge(p[1..][i], p[1..][i + 1])
      {
        assert edge(p[i + 1], p[i + 1 + 1]);
      }
      PathKeepsLabel(clusters, edge, p[1..]);
    }
  }

  lemma SameLabelIffConnected<W(!new)>(clusters: map<W, int>, edge: Relation<W>, roots: seq<W>, u: W, v: W)
    requires Symmetric(edge) && Rooted(clusters, edge, roots) && ClosedExcept(clusters, edge, []) && u in clusters
    ensures (v in clusters && clusters[u] == clusters[v]) <==> Connected(edge, u, v)
  {
    if v in clusters && clusters[u] == clusters[v] {
      var root := roots[clusters[u]];
      ConnectedSym(edge, root, u);
      ConnectedTrans(edge, u, root, v);
    }
    if Connected(edge, u, v) {
      var p :| Joins(edge, p, u, v);
      PathKeepsLabel(clusters, edge, p);
    }
  }

  lemma LabelsAreRootIndices<W(!new)>(clusters: map<W, int>, edge: Relation<W>, roots: seq<W>)
    requires Rooted(clusters, edge, roots)
    ensures LabelsBelow(clusters, |roots|)
  {
    forall id | 0 <= id < |roots|
      ensures id in clusters.Values
    {
      assert clusters[roots[id]] == id;
    }
  }

  lemma EndpointsAreLabelled<W(!new)>(clusters: map<W, int>, g: Graph<W>, edge: Relation<W>)
    requires IsGraph(g, edge) && NoIsolated(g) && clusters.Keys == g.Keys
    ensures LabelsEndpoints(clusters, edge)
  {
    forall u
      ensures u in clusters <==> HasEdge(edge, u)
    {
      if u in clusters {
        assert HasNeighbor(g, u);
        var v :| v in g[u];
        assert edge(u, v);
      }
    }
  }

  lemma LabelsAreExact<W(!new)>(clusters: map<W, int>, g: Graph<W>, edge: Relation<W>, roots: seq<W>)
    requires IsGraph(g, edge) && NoIsolated(g) && clusters.Keys == g.Keys
    requires Symmetric(edge) && Searching(clusters, [], edge, roots)
    ensures IsClustering(clusters, edge)
  {
    EndpointsAreLabelled(clusters, g, edge);
    forall u, v | u in clusters
      ensures (v in clusters && clusters[u] == clusters[v]) <==> Connected(edge, u, v)
    {
      SameLabelIffConnected(clusters, edge, roots, u, v);
    }
    LabelsAreRootIndices(clusters, edge, roots);
  }

  lemma ConnectedMonotone<W(!new)>(edge: Relation<W>, more: Relation<W>, u: W, v: W)
    requires forall x, y | edge(x, y) :: more(x, y)
    requires Connected(edge, u, v)
    ensures Connected(more, u, v)
  {
    var p :| Joins(edge, p, u, v);
    assert Joins(more, p, u, v);
  }

  lemma MoreEdgesOnlyMerge<W(!new)>(edge: Relation<W>, more: Relation<W>, clusters: map<W, int>, clusters': map<W, int>)
    requires forall u, v | edge(u, v) :: more(u, v)
    requires IsClustering(clusters, edge) && IsClustering(clusters', more)
    ensures clusters.Keys <= clusters'.Keys
    ensures forall u, v | u in clusters && v in clusters && clusters[u] == clusters[v] :: clusters'[u] == clusters'[v]
  {
    forall u | u in clusters
      ensures u in clusters'
    {
      assert HasEdge(edge, u);
      var v :| edge(u, v);
      assert more(u, v) && HasEdge(more, u);
    }
    forall u, v | u in clusters && v in clusters && clusters[u] == clusters[v]
      ensures clusters'[u] == clusters'[v]
    {
      ConnectedMonotone(edge, more, u, v);
    }
  }

  // ---- From trades to clusters ----

  /** The clusters of a trade list under a threshold and a window. */
  ghost predicate ClustersOf(clusters: map<string, int>, trades: seq<TradeNorm>, minCoTrades: int, window: int) {
    exists m :: IsMatrix(m, trades, window) && IsClustering(clusters, Edges(m, minCoTrades))
  }

  /** The first two steps of `build_clusters`. */
  method ClusterTrades(trades: seq<TradeNorm>, minCoTrades: int, window: int) returns (clusters: map<string, int>)
    ensures ClustersOf(clusters, trades, minCoTrades, window)
  {
    var m := BuildCoTradeMatrix(trades, window);
    clusters := DetectClusters(m, minCoTrades);
  }

  /** Lowering the threshold or widening the window only merges clusters. */
  lemma LooseningOnlyMerges(trades: seq<TradeNorm>, narrow: int, wide: int, high: int, low: int,
                            clusters: map<string, int>, clusters': map<string, int>)
    requires narrow <= wide && low <= high
    requires ClustersOf(clusters, trades, high, narrow) && ClustersOf(clusters', trades, low, wide)
    ensures clusters.Keys <= clusters'.Keys
    ensures forall u, v | u in clusters && v in clusters && clusters[u] == clusters[v] :: clusters'[u] == clusters'[v]
  {
    var m :| IsMatrix(m, trades, narrow) && IsClustering(clusters, Edges(m, high));
    var m' :| IsMatrix(m', trades, wide) && IsClustering(clusters', Edges(m', low));
    WiderMatrix(trades, narrow, wide, m, m');
    MoreEdgesOnlyMerge(Edges(m, high), Edges(m', low), clusters, clusters');
  }

  lemma WiderMatrix(trades: seq<TradeNorm>, narrow: int, wide: int, m: Matrix, m': Matrix)
    requires narrow <= wide && IsMatrix(m, trades, narrow) && IsMatrix(m', trades, wide)
    ensures forall k | k in m :: k in m' && m'[k] >= m[k]
  {
    forall k | k in m
      ensures k in m' && m'[k] >= m[k]
    {
      CountMonotone(trades, k, narrow, wide);
      assert Get(m, k) <= Get(m', k);
    }
  }

  /** Reordering the trades leaves the partition unchanged. */
  lemma ClustersIgnoreOrder(xs: seq<TradeNorm>, ys: seq<TradeNorm>, window: int, minCoTrades: int,
                            cx: map<string, int>, cy: map<string, int>)
    requires multiset(xs) == multiset(ys)
    requires ClustersOf(cx, xs, minCoTrades, window) && ClustersOf(cy, ys, minCoTrades, window)
    ensures cx.Keys == cy.Keys
    ensures forall u, v | u in cx && v in cx :: cx[u] == cx[v] <==> cy[u] == cy[v]
  {
    var mx :| IsMatrix(mx, xs, window) && IsClustering(cx, Edges(mx, minCoTrades));
    var my :| IsMatrix(my, ys, window) && IsClustering(cy, Edges(my, minCoTrades));
    MatrixIgnoresOrder(xs, ys, window, mx, my);
    SamePartition(Edges(mx, minCoTrades), cx, cy);
  }

  /** The edges determine the clustering, up to the numbering of the clusters. */
  lemma SamePartition<W(!new)>(edge: Relation<W>, c: map<W, int>, d: map<W, int>)
    requires IsClustering(c, edge) && IsClustering(d, edge)
    ensures c.Keys == d.Keys
    ensures forall u, v | u in c && v in c :: c[u] == c[v] <==> d[u] == d[v]
  {
    forall u
      ensures u in c <==> u in d
    {
      assert u in c <==> HasEdge(edge, u);
    }
    forall u, v | u in c && v in c
      ensures c[u] == c[v] <==> d[u] == d[v]
    {
      assert c[u] == c[v] <==> Connected(edge, u, v);
    }
  }
}
