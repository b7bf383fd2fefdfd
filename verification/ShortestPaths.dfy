/** Dijkstra's algorithm over the pointer-linked heap.  Every result is about the loop nest of
    Calculate, parameterised by `restoring`: false is the source, true is the variant in which
    ExtractMin also redirects the back pointer of the slot it moves to the root. */
module ShortestPaths {
  import opened Metrics
  import opened Options
  import opened BHeap

  datatype AdjNode = AdjNode(node: nat, weight: NFMetric)

  type AdjList = seq<seq<AdjNode>>

  /** There is a node 0, and every edge leads to a node of the list. */
  ghost predicate Closed(adj: AdjList) {
    && |adj| > 0
    && forall u, e | 0 <= u < |adj| && e in adj[u] :: e.node < |adj|
  }

  /** No edge weight exceeds 2 * (INFINITE / 3). */
  ghost predicate Bounded(adj: AdjList) {
    forall u, e | 0 <= u < |adj| && e in adj[u] :: e.weight <= MAX_WEIGHT
  }

  ghost predicate Edge(adj: AdjList, u: nat, v: nat, w: NFMetric) {
    u < |adj| && AdjNode(v, w) in adj[u]
  }

  // ---------- The algorithm on values ----------

  /** The arrays of a calculation in progress, and the nodes extracted so far. */
  datatype Run = Run(heap: Heap, prehop: seq<nat>, order: seq<nat>)

  ghost predicate Shaped(run: Run) {
    && Labelled(run.heap)
    && |run.heap.graph| == |run.prehop|
    && (forall s | 0 <= s < |run.prehop| :: run.heap.handlers[s].node < |run.prehop|)
    && (forall v | 0 <= v < |run.prehop| ::
         run.heap.graph[v].handler.At? ==> run.heap.graph[v].handler.index < |run.prehop|)
  }

  ghost function InitialGraph(n: nat): seq<NodeDistance> {
    seq(n, i requires 0 <= i < n => NodeDistance(i, if i == 0 then 0 else UNREACHED, Null))
  }

  ghost function Initial(n: nat): (run: Run)
    ensures Shaped(run) && |run.prehop| == n && run.order == [] && run.heap.size == n
  {
    var h := Attached(InitialGraph(n));
    HeapifyDownRearranges(h.(size := n), n / 2);
    assert Labelled(h.(size := n));
    assert Labelled(Built(h));
    Run(Built(h), seq(n, _ => n), [])
  }

  /** None is the fatal error raised when the node to update has no handler. */
  ghost function Relaxed(run: Run, u: nat, v: nat, w: NFMetric): (r: Option<Run>)
    requires Shaped(run) && u < |run.prehop| && v < |run.prehop|
    ensures r.Some? ==> Shaped(r.value) && r.value.heap.size == run.heap.size && |r.value.prehop| == |run.prehop|
  {
    var h := run.heap;
    var distance := Plus(h.graph[u].distance, w);
    if h.graph[v].distance <= distance then Some(run)
    else match h.graph[v].handler
      case Null => None
      case At(s) =>
        Some(run.(heap := h.(graph := h.graph[v := h.graph[v].(distance := distance)],
                             handlers := h.handlers[s := h.handlers[s].(distance := distance)]),
                  prehop := run.prehop[v := u]))
  }

  ghost function RebuiltRun(run: Run): (r: Run)
    requires Shaped(run)
    ensures Shaped(r) && r.heap.size == run.heap.size && |r.prehop| == |run.prehop|
  {
    RebuildRearranges(run.heap);
    assert forall s | 0 <= s < |run.prehop| ::
        Rebuilt(run.heap).handlers[s].handler == At(Rebuilt(run.heap).handlers[s].node);
    run.(heap := Rebuilt(run.heap))
  }

  /** Relaxing the edges of u in list order, with a rebuild after each. */
  ghost function RelaxedAll(run: Run, u: nat, edges: seq<AdjNode>): (r: Option<Run>)
    requires Shaped(run) && u < |run.prehop| && forall e | e in edges :: e.node < |run.prehop|
    ensures r.Some? ==> Shaped(r.value) && r.value.heap.size == run.heap.size && |r.value.prehop| == |run.prehop|
    decreases |edges|
  {
    if edges == [] then Some(run)
    else
      var r := Relaxed(run, u, edges[0].node, edges[0].weight);
      if r.None? then None else RelaxedAll(RebuiltRun(r.value), u, edges[1..])
  }

  /** The node that will be extracted next. */
  ghost function Root(run: Run): (u: nat)
    requires Shaped(run) && run.heap.size > 0
    ensures u < |run.prehop|
  {
    run.heap.handlers[0].node
  }

  ghost function Popped(run: Run, restoring: bool): (r: Run)
    requires Shaped(run) && run.heap.size > 0
    ensures Shaped(r) && r.heap.size == run.heap.size - 1 && |r.prehop| == |run.prehop|
  {
    var h := DropRoot(run.heap, restoring);
    assert Labelled(h);
    HeapifyRearranges(h, 0);
    assert forall s | 0 <= s < |run.prehop| ::
        Heapified(h, 0).handlers[s].handler == At(Heapified(h, 0).handlers[s].node);
    Run(Extracted(run.heap, restoring), run.prehop, run.order + [Root(run)])
  }

  /** One turn of the outer loop: the root is extracted and its edges are relaxed. */
  ghost function Turn(run: Run, adj: AdjList, restoring: bool): (r: Option<Run>)
    requires Closed(adj) && Shaped(run) && |run.prehop| == |adj| && run.heap.size > 0
    ensures r.Some? ==> Shaped(r.value) && r.value.heap.size == run.heap.size - 1 && |r.value.prehop| == |adj|
  {
    var u := Root(run);
    RelaxedAll(Popped(run, restoring), u, adj[u])
  }

  ghost function Drained(run: Run, adj: AdjList, restoring: bool): (r: Option<Run>)
    requires Closed(adj) && Shaped(run) && |run.prehop| == |adj|
    ensures r.Some? ==> Shaped(r.value) && |r.value.prehop| == |adj|
    decreases run.heap.size
  {
    if run.heap.size == 0 then Some(run)
    else
      var r := Turn(run, adj, restoring);
      if r.None? then None else Drained(r.value, adj, restoring)
  }

  ghost function Calculated(adj: AdjList, restoring: bool): (r: Option<Run>)
    requires Closed(adj)
    ensures r.Some? ==> Shaped(r.value) && |r.value.prehop| == |adj|
  {
    Drained(Initial(|adj|), adj, restoring)
  }

  // ---------- Every node is extracted exactly once ----------

  /** Extracted nodes and live slots partition the nodes, and no back pointer is null. */
  ghost predicate Partitioned(run: Run) {
    && Shaped(run)
    && |run.order| + run.heap.size == |run.prehop|
    && (forall v | 0 <= v < |run.prehop| :: run.heap.graph[v].node == v && run.heap.graph[v].handler.At?)
    && (forall v: nat :: v in Live(run.heap) || v in run.order <==> v < |run.prehop|)
    && (forall v | v in run.order :: v !in Live(run.heap))
    && (forall i, j | 0 <= i < j < |run.order| :: run.order[i] != run.order[j])
  }

  lemma InitialPartitioned(n: nat)
    ensures Partitioned(Initial(n)) && |Initial(n).prehop| == n
    ensures Distances(Initial(n)) == seq(n, i => if i == 0 then 0 else UNREACHED)
  {
    var h := Attached(InitialGraph(n)).(size := n);
    HeapifyDownRearranges(h, n / 2);
    forall v: nat | v < n
      ensures v in Live(h)
    {
      assert h.handlers[v].node == v;
    }
  }

  /** Rearranging the heap changes neither the partition nor the distances. */
  lemma RearrangedPartitioned(run: Run, h: Heap)
    requires Partitioned(run) && Sound(h) && Rearranged(run.heap, h)
    ensures Partitioned(run.(heap := h)) && Distances(run.(heap := h)) == Distances(run)
  {
    forall s | 0 <= s < |run.prehop|
      ensures h.handlers[s].node < |run.prehop|
    {
      assert h.handlers[s].handler == At(h.handlers[s].node);
    }
  }

  lemma DroppedPartitioned(run: Run, restoring: bool)
    requires Partitioned(run) && run.heap.size > 0
    ensures var r := Run(DropRoot(run.heap, restoring), run.prehop, run.order + [Root(run)]);
            Partitioned(r) && Distances(r) == Distances(run)
    ensures Root(run) in Live(run.heap)
  {
    DroppedLive(run.heap, restoring);
  }

  lemma PoppedPartitioned(run: Run, restoring: bool)
    requires Partitioned(run) && run.heap.size > 0
    ensures Partitioned(Popped(run, restoring))
    ensures Distances(Popped(run, restoring)) == Distances(run)
    ensures Root(run) in Live(run.heap)
  {
    hide Heapified, DropRoot, Distances, Live, Rearranged;
    DroppedPartitioned(run, restoring);
    HeapifyRearranges(DropRoot(run.heap, restoring), 0);
    RearrangedPartitioned(Run(DropRoot(run.heap, restoring), run.prehop, run.order + [Root(run)]),
      Extracted(run.heap, restoring));
  }

  lemma DroppedLive(h: Heap, restoring: bool)
    requires Labelled(h) && h.size > 0
    ensures Live(DropRoot(h, restoring)) == Live(h) - {h.handlers[0].node}
    ensures h.handlers[0].node in Live(h)
  {
    var h' := DropRoot(h, restoring);
    forall v | v in Live(h) && v != h.handlers[0].node
      ensures v in Live(h')
    {
      var s :| 0 <= s < h.size && h.handlers[s].node == v;
      assert h'.handlers[if s == h.size - 1 then 0 else s].node == v;
    }
    forall v | v in Live(h')
      ensures v in Live(h) && v != h.handlers[0].node
    {
      var s :| 0 <= s < h'.size && h'.handlers[s].node == v;
      assert h.handlers[if s == 0 then h.size - 1 else s].node == v;
    }
  }

  ghost function Distances(run: Run): (d: seq<NFMetric>)
    ensures |d| == |run.heap.graph|
  {
    seq(|run.heap.graph|, v requires 0 <= v < |run.heap.graph| => run.heap.graph[v].distance)
  }

  /** What one relaxation does to the distances. */
  ghost function Lowered(d: seq<NFMetric>, u: nat, e: AdjNode): (r: seq<NFMetric>)
    requires u < |d| && e.node < |d|
    ensures |r| == |d|
  {
    if d[e.node] > Plus(d[u], e.weight) then d[e.node := Plus(d[u], e.weight)] else d
  }

  lemma RelaxedKeepsPartition(run: Run, u: nat, e: AdjNode)
    requires Partitioned(run) && u < |run.prehop| && e.node < |run.prehop|
    ensures Relaxed(run, u, e.node, e.weight).Some?
    ensures var r := Relaxed(run, u, e.node, e.weight).value;
            && Partitioned(r) && r.order == run.order
            && Distances(r) == Lowered(Distances(run), u, e)
            && r.prehop == (if Distances(run)[e.node] > Plus(Distances(run)[u], e.weight) then run.prehop[e.node := u]
                 else run.prehop)
  {
    var r := Relaxed(run, u, e.node, e.weight).value;
    assert Live(r.heap) == Live(run.heap) by {
      assert forall s | 0 <= s < run.heap.size :: r.heap.handlers[s].node == run.heap.handlers[s].node;
    }
  }

  lemma RebuiltKeepsPartition(run: Run)
    requires Partitioned(run)
    ensures Partitioned(RebuiltRun(run)) && Distances(RebuiltRun(run)) == Distances(run)
  {
    hide Rebuilt;
    RebuildRearranges(run.heap);
  }

  lemma RelaxedPartitioned(run: Run, u: nat, e: AdjNode)
    requires Partitioned(run) && u < |run.prehop| && e.node < |run.prehop|
    ensures Relaxed(run, u, e.node, e.weight).Some?
    ensures var r := RebuiltRun(Relaxed(run, u, e.node, e.weight).value);
            && Partitioned(r) && r.order == run.order
            && Distances(r) == Lowered(Distances(run), u, e)
            && r.prehop == (if Distances(run)[e.node] > Plus(Distances(run)[u], e.weight) then run.prehop[e.node := u]
                 else run.prehop)
  {
    hide Relaxed, Rebuilt, Live, Distances, Labelled;
    RelaxedKeepsPartition(run, u, e);
    RebuiltKeepsPartition(Relaxed(run, u, e.node, e.weight).value);
  }

  ghost function LoweredAll(d: seq<NFMetric>, u: nat, edges: seq<AdjNode>): (r: seq<NFMetric>)
    requires u < |d| && forall e | e in edges :: e.node < |d|
    ensures |r| == |d|
    decreases |edges|
  {
    if edges == [] then d else LoweredAll(Lowered(d, u, edges[0]), u, edges[1..])
  }

  lemma {:induction false} RelaxedAllPartitioned(run: Run, u: nat, edges: seq<AdjNode>)
    requires Partitioned(run) && u < |run.prehop| && forall e | e in edges :: e.node < |run.prehop|
    ensures RelaxedAll(run, u, edges).Some?
    ensures var r := RelaxedAll(run, u, edges).value;
            Partitioned(r) && r.order == run.order && Distances(r) == LoweredAll(Distances(run), u, edges)
    decreases |edges|
  {
    if edges == [] {
    } else {
      RelaxedPartitioned(run, u, edges[0]);
      RelaxedAllPartitioned(RebuiltRun(Relaxed(run, u, edges[0].node, edges[0].weight).value), u, edges[1..]);
    }
  }

  lemma RelaxedAllUnfolds(run: Run, u: nat, edges: seq<AdjNode>, i: nat)
    requires Shaped(run) && u < |run.prehop| && i < |edges| && forall e | e in edges :: e.node < |run.prehop|
    ensures var r := Relaxed(run, u, edges[i].node, edges[i].weight);
            RelaxedAll(run, u, edges[i..]) == if r.None? then None
              else RelaxedAll(RebuiltRun(r.value), u, edges[i + 1..])
  {
    assert edges[i..][1..] == edges[i + 1..];
  }

  lemma TurnPartitioned(run: Run, adj: AdjList, restoring: bool)
    requires Closed(adj) && Partitioned(run) && |run.prehop| == |adj| && run.heap.size > 0
    ensures Turn(run, adj, restoring).Some?
    ensures var u := Root(run);
            var r := Turn(run, adj, restoring).value;
            && Partitioned(r) && u !in run.order && r.order == run.order + [u]
            && Distances(r) == LoweredAll(Distances(run), u, adj[u])
  {
    var u := Root(run);
    PoppedPartitioned(run, restoring);
    RelaxedAllPartitioned(Popped(run, restoring), u, adj[u]);
  }

  lemma {:induction false} DrainedPartitioned(run: Run, adj: AdjList, restoring: bool)
    requires Closed(adj) && Partitioned(run) && |run.prehop| == |adj|
    ensures Drained(run, adj, restoring).Some?
    ensures var r := Drained(run, adj, restoring).value;
            Partitioned(r) && r.heap.size == 0 && run.order <= r.order
    decreases run.heap.size
  {
    if run.heap.size == 0 {
    } else {
      TurnPartitioned(run, adj, restoring);
      DrainedPartitioned(Turn(run, adj, restoring).value, adj, restoring);
    }
  }

  /** For every closed adjacency list, whatever its weights and despite the stale back pointers of
      the source: no handler is ever NULL, there are exactly as many extractions as nodes, and
      every node is extracted exactly once. */
  lemma EveryNodeExtractedOnce(adj: AdjList, restoring: bool)
    requires Closed(adj)
    ensures Calculated(adj, restoring).Some?
    ensures var r := Calculated(adj, restoring).value;
            && |r.order| == |adj|
            && (forall v: nat :: v in r.order <==> v < |adj|)
            && (forall i, j | 0 <= i < j < |adj| :: r.order[i] != r.order[j])
            && (forall v | 0 <= v < |adj| :: r.heap.graph[v].node == v)
  {
    hide Initial, Drained;
    InitialPartitioned(|adj|);
    DrainedPartitioned(Initial(|adj|), adj, restoring);
    assert Live(Calculated(adj, restoring).value.heap) == {};
  }

  // ---------- The predecessor forest ----------

  /** v reaches node 0 along predecessors in exactly k steps. */
  ghost predicate Rooted(prehop: seq<nat>, v: nat, k: nat)
    decreases k
  {
    if v == 0 then k == 0
    else k > 0 && v < |prehop| && prehop[v] < |prehop| && Rooted(prehop, prehop[v], k - 1)
  }

  /** The predecessor of v is joined to it by an edge no longer than their distances differ. */
  ghost predicate Supported(adj: AdjList, d: seq<NFMetric>, prehop: seq<nat>, v: nat)
    requires |d| == |prehop| && v < |d| && prehop[v] < |d|
  {
    exists w: NFMetric :: Edge(adj, prehop[v], v, w) && d[prehop[v]] + w <= d[v]
  }

  ghost predicate Forest(adj: AdjList, d: seq<NFMetric>, prehop: seq<nat>) {
    && |d| == |prehop| == |adj| > 0
    && d[0] == 0 && prehop[0] == |adj|
    && (forall v | 0 <= v < |adj| :: d[v] <= UNREACHED)
    && (forall v | 0 < v < |adj| :: prehop[v] == |adj| <==> d[v] == UNREACHED)
    && (forall v | 0 < v < |adj| && prehop[v] != |adj| ::
          prehop[v] < |adj| && Supported(adj, d, prehop, v) && exists k: nat :: Rooted(prehop, v, k))
  }

  lemma {:induction false} RootedElsewhere(adj: AdjList, d: seq<NFMetric>, prehop: seq<nat>, u: nat, v: nat, x: nat,
                                           k: nat)
    requires Forest(adj, d, prehop) && v < |adj| && x < |adj|
    requires Rooted(prehop, x, k) && d[x] < d[v]
    ensures Rooted(prehop[v := u], x, k)
    decreases k
  {
    if x != 0 {
      assert Supported(adj, d, prehop, x);
      RootedElsewhere(adj, d, prehop, u, v, prehop[x], k - 1);
    }
  }

  lemma {:induction false} RootedThrough(prehop: seq<nat>, prehop': seq<nat>, u: nat, v: nat, ku: nat, x: nat, k: nat)
    requires 0 < v < |prehop| && u < |prehop| && x < |prehop| && prehop' == prehop[v := u]
    requires Rooted(prehop', u, ku) && Rooted(prehop, x, k)
    ensures exists k': nat :: Rooted(prehop', x, k')
    decreases k
  {
    if x == 0 {
      assert Rooted(prehop', x, 0);
    } else if x == v {
      assert Rooted(prehop', x, ku + 1);
    } else {
      RootedThrough(prehop, prehop', u, v, ku, prehop[x], k - 1);
      var k': nat :| Rooted(prehop', prehop[x], k');
      assert Rooted(prehop', x, k' + 1);
    }
  }

  /** A successful relaxation never closes a cycle, not even over weights of zero. */
  lemma LoweredForest(adj: AdjList, d: seq<NFMetric>, prehop: seq<nat>, u: nat, e: AdjNode)
    requires Forest(adj, d, prehop) && u < |adj| && e.node < |adj| && Edge(adj, u, e.node, e.weight)
    requires e.weight <= MAX_WEIGHT && d[e.node] > Plus(d[u], e.weight)
    ensures Plus(d[u], e.weight) == d[u] + e.weight && e.node != 0
    ensures Forest(adj, Lowered(d, u, e), prehop[e.node := u])
  {
    PlusExactIffBounded(e.weight);
    var v := e.node;
    var d', prehop' := Lowered(d, u, e), prehop[v := u];
    var ku: nat :| Rooted(prehop, u, ku) by {
      assert Rooted(prehop, 0, 0);
    }
    RootedElsewhere(adj, d, prehop, u, v, u, ku);
    forall x | 0 < x < |adj| && prehop'[x] != |adj|
      ensures prehop'[x] < |adj| && Supported(adj, d', prehop', x) && exists k: nat :: Rooted(prehop', x, k)
    {
      if x == v {
        assert Edge(adj, prehop'[x], x, e.weight) && d'[prehop'[x]] + e.weight <= d'[x];
        assert Rooted(prehop', x, ku + 1);
      } else {
        assert Supported(adj, d, prehop, x);
        var w: NFMetric :| Edge(adj, prehop[x], x, w) && d[prehop[x]] + w <= d[x];
        assert Edge(adj, prehop'[x], x, w) && d'[prehop'[x]] + w <= d'[x];
        var k: nat :| Rooted(prehop, x, k);
        RootedThrough(prehop, prehop', u, v, ku, x, k);
      }
    }
  }

  lemma {:induction false} RelaxedAllForest(run: Run, adj: AdjList, u: nat, edges: seq<AdjNode>)
    requires Partitioned(run) && Bounded(adj) && Forest(adj, Distances(run), run.prehop)
    requires u < |adj| && forall e | e in edges :: e.node < |adj| && e in adj[u]
    ensures RelaxedAll(run, u, edges).Some?
    ensures Forest(adj, Distances(RelaxedAll(run, u, edges).value), RelaxedAll(run, u, edges).value.prehop)
    decreases |edges|
  {
    RelaxedAllPartitioned(run, u, edges);
    if edges == [] {
    } else {
      var e := edges[0];
      RelaxedPartitioned(run, u, e);
      if Distances(run)[e.node] > Plus(Distances(run)[u], e.weight) {
        LoweredForest(adj, Distances(run), run.prehop, u, e);
      }
      RelaxedAllForest(RebuiltRun(Relaxed(run, u, e.node, e.weight).value), adj, u, edges[1..]);
    }
  }

  /** One turn keeps the partition of the nodes and the predecessor forest. */
  lemma TurnKeepsForest(run: Run, adj: AdjList, restoring: bool)
    requires Closed(adj) && Bounded(adj) && Partitioned(run) && run.heap.size > 0
    requires Forest(adj, Distances(run), run.prehop)
    ensures Turn(run, adj, restoring).Some?
    ensures var u := Root(run);
            var r := Turn(run, adj, restoring).value;
            && Partitioned(r) && Forest(adj, Distances(r), r.prehop)
            && u < |adj| && u !in run.order && r.order == run.order + [u]
            && Distances(run)[u] <= UNREACHED && Distances(run)[0] == 0
            && Distances(r) == LoweredAll(Distances(run), u, adj[u])
            && Drained(run, adj, restoring) == Drained(r, adj, restoring)
  {
    hide Labelled, Heapified, DropRoot, Extracted, LoweredAll;
    TurnPartitioned(run, adj, restoring);
    PoppedPartitioned(run, restoring);
    RelaxedAllForest(Popped(run, restoring), adj, Root(run), adj[Root(run)]);
  }

  lemma {:induction false} DrainedForest(run: Run, adj: AdjList, restoring: bool)
    requires Closed(adj) && Bounded(adj) && Partitioned(run) && Forest(adj, Distances(run), run.prehop)
    ensures Drained(run, adj, restoring).Some?
    ensures var r := Drained(run, adj, restoring).value; Forest(adj, Distances(r), r.prehop)
    decreases run.heap.size
  {
    hide Labelled, Forest, LoweredAll, Turn, RelaxedAll;
    if run.heap.size == 0 {
    } else {
      TurnKeepsForest(run, adj, restoring);
      DrainedForest(Turn(run, adj, restoring).value, adj, restoring);
    }
  }

  lemma InitialForest(adj: AdjList)
    requires Closed(adj)
    ensures Forest(adj, Distances(Initial(|adj|)), Initial(|adj|).prehop)
  {
    hide Labelled, Built, HeapifiedDown;
    InitialPartitioned(|adj|);
  }

  lemma CalculatedForest(adj: AdjList, restoring: bool)
    requires Closed(adj) && Bounded(adj)
    ensures Calculated(adj, restoring).Some?
    ensures var r := Calculated(adj, restoring).value; Forest(adj, Distances(r), r.prehop)
  {
    hide Initial, Forest, Labelled, Drained;
    InitialPartitioned(|adj|);
    InitialForest(adj);
    DrainedForest(Initial(|adj|), adj, restoring);
  }

  // ---------- Walks ----------

  /** A walk from node 0, given by its hops. */
  datatype Walk = Origin | Hop(prev: Walk, node: nat, weight: NFMetric)

  ghost function End(walk: Walk): nat {
    if walk.Origin? then 0 else walk.node
  }

  ghost function Weight(walk: Walk): nat {
    if walk.Origin? then 0 else Weight(walk.prev) + walk.weight
  }

  ghost function Hops(walk: Walk): nat {
    if walk.Origin? then 0 else 1 + Hops(walk.prev)
  }

  ghost predicate IsWalk(adj: AdjList, walk: Walk) {
    walk.Hop? ==> IsWalk(adj, walk.prev) && Edge(adj, End(walk.prev), walk.node, walk.weight)
  }

  /** Every hop comes from the recorded predecessor of its node. */
  ghost predicate Follows(prehop: seq<nat>, walk: Walk) {
    walk.Hop? ==>
      && 0 < walk.node < |prehop|
      && prehop[walk.node] == End(walk.prev)
      && Follows(prehop, walk.prev)
  }

  ghost predicate PathWithin(adj: AdjList, prehop: seq<nat>, v: nat, limit: nat, walk: Walk) {
    IsWalk(adj, walk) && Follows(prehop, walk) && End(walk) == v && Weight(walk) <= limit
  }

  lemma {:induction false} PrehopWalk(adj: AdjList, d: seq<NFMetric>, prehop: seq<nat>, v: nat,
                                      k: nat) returns (walk: Walk)
    requires Forest(adj, d, prehop) && v < |adj| && Rooted(prehop, v, k)
    ensures PathWithin(adj, prehop, v, d[v], walk)
    decreases k
  {
    if v == 0 {
      walk := Origin;
    } else {
      var prev := PrehopWalk(adj, d, prehop, prehop[v], k - 1);
      assert Supported(adj, d, prehop, v);
      var w: NFMetric :| Edge(adj, prehop[v], v, w) && d[prehop[v]] + w <= d[v];
      walk := Hop(prev, v, w);
    }
  }

  /** For every bounded adjacency list, in the source and in the variant, whatever order the heap
      yields: node 0 has no predecessor; the other nodes with a predecessor are exactly those with
      a distance below UNREACHED; and following predecessors from such a node ends at node 0 along
      a real walk that weighs no more than the distance stored for the node. */
  lemma PrehopsFormForest(adj: AdjList, restoring: bool)
    requires Closed(adj) && Bounded(adj)
    ensures Calculated(adj, restoring).Some?
    ensures var r := Calculated(adj, restoring).value;
            var d := Distances(r);
            && d[0] == 0 && r.prehop[0] == |adj|
            && (forall v | 0 <= v < |adj| :: d[v] <= UNREACHED)
            && (forall v | 0 < v < |adj| :: r.prehop[v] < |adj| <==> d[v] < UNREACHED)
            && (forall v | 0 < v < |adj| && r.prehop[v] < |adj| :: exists walk ::
                 PathWithin(adj, r.prehop, v, d[v], walk))
  {
    CalculatedForest(adj, restoring);
    var r := Calculated(adj, restoring).value;
    forall v | 0 < v < |adj| && r.prehop[v] < |adj|
      ensures exists walk :: PathWithin(adj, r.prehop, v, Distances(r)[v], walk)
    {
      var k: nat :| Rooted(r.prehop, v, k);
      var walk := PrehopWalk(adj, Distances(r), r.prehop, v, k);
    }
  }

  // ---------- When the distances are the shortest ones ----------

  ghost predicate Shortest(adj: AdjList, d: seq<NFMetric>) {
    && |d| == |adj|
    && (forall v | 0 <= v < |adj| :: d[v] <= UNREACHED)
    && (forall walk | IsWalk(adj, walk) && End(walk) < |adj| :: d[End(walk)] <= Weight(walk))
    && (forall v | 0 <= v < |adj| && d[v] < UNREACHED :: Attained(adj, v, d[v]))
  }

  ghost predicate Attained(adj: AdjList, v: nat, weight: nat) {
    exists walk :: IsWalk(adj, walk) && End(walk) == v && Weight(walk) == weight
  }

  /** Each reached node's predecessor path is a real walk that weighs exactly its distance. */
  ghost predicate PathsExact(adj: AdjList, d: seq<NFMetric>, prehop: seq<nat>)
    requires |d| == |adj|
  {
    forall v | 0 < v < |adj| && d[v] < UNREACHED ::
      exists walk :: PathWithin(adj, prehop, v, d[v], walk) && Weight(walk) == d[v]
  }

  ghost predicate NoEdgeRelaxes(adj: AdjList, d: seq<NFMetric>)
    requires |d| == |adj| && Closed(adj)
  {
    forall u: nat, v: nat, w: NFMetric | Edge(adj, u, v, w) :: d[v] <= d[u] + w
  }

  lemma {:induction false} NoWalkIsLighter(adj: AdjList, d: seq<NFMetric>, walk: Walk)
    requires Closed(adj) && |d| == |adj| && d[0] == 0 && NoEdgeRelaxes(adj, d)
    requires IsWalk(adj, walk)
    ensures End(walk) < |adj| && d[End(walk)] <= Weight(walk)
  {
    if walk.Hop? {
      NoWalkIsLighter(adj, d, walk.prev);
      assert Edge(adj, End(walk.prev), walk.node, walk.weight);
    }
  }

  /** What a caller can check after the call: for every bounded adjacency list, in the source and in
      the variant, the distances are the true ones if and only if no edge could be relaxed once
      more, and then the predecessor path of each reached node attains its distance exactly. */
  lemma ShortestIffNoEdgeRelaxes(adj: AdjList, restoring: bool)
    requires Closed(adj) && Bounded(adj)
    ensures Calculated(adj, restoring).Some?
    ensures var r := Calculated(adj, restoring).value;
            var d := Distances(r);
            && (Shortest(adj, d) <==> NoEdgeRelaxes(adj, d))
            && (Shortest(adj, d) ==> PathsExact(adj, d, r.prehop))
  {
    hide Calculated, Labelled;
    PrehopsFormForest(adj, restoring);
    var r := Calculated(adj, restoring).value;
    var d := Distances(r);
    if Shortest(adj, d) {
      forall u: nat, v: nat, w: NFMetric | Edge(adj, u, v, w)
        ensures d[v] <= d[u] + w
      {
        if d[u] < UNREACHED {
          assert Attained(adj, u, d[u]);
          var walk :| IsWalk(adj, walk) && End(walk) == u && Weight(walk) == d[u];
          assert IsWalk(adj, Hop(walk, v, w));
        }
      }
    }
    if NoEdgeRelaxes(adj, d) {
      forall walk | IsWalk(adj, walk)
        ensures End(walk) < |adj| && d[End(walk)] <= Weight(walk)
      {
        NoWalkIsLighter(adj, d, walk);
      }
      forall v | 0 <= v < |adj| && d[v] < UNREACHED
        ensures Attained(adj, v, d[v])
        ensures v > 0 ==> exists walk :: PathWithin(adj, r.prehop, v, d[v], walk) && Weight(walk) == d[v]
      {
        if v == 0 {
          assert IsWalk(adj, Origin) && End(Origin) == 0 && Weight(Origin) == 0;
        } else {
          var walk :| PathWithin(adj, r.prehop, v, d[v], walk);
          assert IsWalk(adj, walk) && End(walk) == v && Weight(walk) == d[v];
        }
      }
    }
  }

  // ---------- The class ----------

  class Dijkstra {
    const adjList: AdjList
    var graph: array<NodeDistance>
    var prehop: seq<nat>

    constructor (adjList: AdjList)
      ensures this.adjList == adjList && fresh(graph) && prehop == []
    {
      this.adjList := adjList;
      graph := new NodeDistance[0];
      prehop := [];
    }

    method Initialize()
      requires |adjList| > 0
      modifies this
      ensures fresh(graph) && graph[..] == InitialGraph(|adjList|) && prehop == seq(|adjList|, _ => |adjList|)
    {
      var size := |adjList|;
      graph := new NodeDistance[size](_ => NodeDistance(0, 0, Null));
      prehop := [];
      for i := 0 to size
        invariant graph.Length == size && fresh(graph)
        invariant prehop == seq(i, _ => size)
        invariant forall k | 0 <= k < i :: graph[k] == NodeDistance(k, UNREACHED, Null)
      {
        prehop := prehop + [size];
        graph[i] := NodeDistance(i, UNREACHED, Null);
      }
      graph[0] := graph[0].(distance := 0);
      assert graph[..] == InitialGraph(size);
    }

    /** The arrays as a value, with the order of extraction so far. */
    ghost function View(heap: BinaryHeap, order: seq<nat>): Run
      reads this, heap, heap.graph, heap.handlers
    {
      Run(heap.View(), prehop, order)
    }

    /** Returns false where the source stops with a fatal error. */
    method Relax(heap: BinaryHeap, nodeU: nat, nodeV: nat, weight: NFMetric, ghost order: seq<nat>) returns (ok: bool)
      requires heap.Valid() && heap.graph == graph && Shaped(View(heap, order))
      requires nodeU < graph.Length && nodeV < graph.Length
      modifies this`prehop, graph, heap.handlers
      ensures heap.Valid()
      ensures ok == Relaxed(old(View(heap, order)), nodeU, nodeV, weight).Some?
      ensures ok ==> View(heap, order) == Relaxed(old(View(heap, order)), nodeU, nodeV, weight).value
    {
      ok := true;
      if graph[nodeV].distance > Plus(graph[nodeU].distance, weight) {
        graph[nodeV] := graph[nodeV].(distance := Plus(graph[nodeU].distance, weight));
        if graph[nodeV].handler.At? {
          var s := graph[nodeV].handler.index;
          heap.handlers[s] := heap.handlers[s].(distance := graph[nodeV].distance);
        } else {
          return false;
        }
        prehop := prehop[nodeV := nodeU];
        ghost var r := Relaxed(old(View(heap, order)), nodeU, nodeV, weight).value;
        assert graph[..] == r.heap.graph;
        assert heap.handlers[..] == r.heap.handlers;
      }
    }

    method RelaxAndRebuild(heap: BinaryHeap, node: nat, edge: AdjNode, ghost order: seq<nat>) returns (ok: bool)
      requires heap.Valid() && heap.graph == graph && Shaped(View(heap, order))
      requires node < graph.Length && edge.node < graph.Length
      modifies this`prehop, graph, heap.handlers
      ensures heap.Valid()
      ensures ok == Relaxed(old(View(heap, order)), node, edge.node, edge.weight).Some?
      ensures ok ==>
                View(heap, order) == RebuiltRun(Relaxed(old(View(heap, order)), node, edge.node, edge.weight).value)
    {
      ok := Relax(heap, node, edge.node, edge.weight, order);
      if ok {
        heap.Rebuild();
      }
    }

    /** Relaxes every edge of an extracted node, rebuilding the heap after each. */
    method RelaxEdges(heap: BinaryHeap, node: nat, edges: seq<AdjNode>, ghost order: seq<nat>) returns (ok: bool)
      requires heap.Valid() && heap.graph == graph && Shaped(View(heap, order)) && |prehop| == graph.Length
      requires node < graph.Length && forall e | e in edges :: e.node < graph.Length
      modifies this`prehop, graph, heap.handlers
      ensures heap.Valid()
      ensures ok == RelaxedAll(old(View(heap, order)), node, edges).Some?
      ensures ok ==> View(heap, order) == RelaxedAll(old(View(heap, order)), node, edges).value
    {
      ghost var all := RelaxedAll(View(heap, order), node, edges);
      var i := 0;
      while i < |edges|
        invariant 0 <= i <= |edges| && heap.Valid() && heap.graph == graph
        invariant Shaped(View(heap, order)) && |prehop| == graph.Length
        invariant RelaxedAll(View(heap, order), node, edges[i..]) == all
      {
        RelaxedAllUnfolds(View(heap, order), node, edges, i);
        ok := RelaxAndRebuild(heap, node, edges[i], order);
        if !ok {
          return;
        }
        i := i + 1;
      }
      ok := true;
    }

    /** The body of the outer loop. */
    method ProcessMin(heap: BinaryHeap, restoring: bool,
                      ghost order: seq<nat>) returns (ok: bool, ghost order': seq<nat>)
      requires Closed(adjList) && heap.Valid() && heap.graph == graph && heap.heapSize > 0
      requires Shaped(View(heap, order)) && |prehop| == |adjList|
      modifies this`prehop, heap, graph, heap.handlers
      ensures heap.Valid()
      ensures ok == Turn(old(View(heap, order)), adjList, restoring).Some?
      ensures ok ==> View(heap, order') == Turn(old(View(heap, order)), adjList, restoring).value
    {
      hide RelaxedAll, Heapified, DropRoot;
      ghost var before := View(heap, order);
      var currentMin := heap.ExtractMin(restoring);
      order' := order + [currentMin];
      assert View(heap, order') == Popped(before, restoring);
      ok := RelaxEdges(heap, currentMin, adjList[currentMin], order');
    }

    /** The source when `restoring` is false. */
    method Calculate(restoring: bool) returns (ok: bool, ghost run: Run)
      requires Closed(adjList)
      modifies this
      ensures ok == Calculated(adjList, restoring).Some?
      ensures ok ==> run == Calculated(adjList, restoring).value && graph[..] == run.heap.graph && prehop == run.prehop
      ensures fresh(graph)
    {
      hide Turn, Heapified, HeapifiedDown, DropRoot;
      Initialize();
      var heap := new BinaryHeap(graph);
      heap.Build();
      ghost var order: seq<nat> := [];
      run := View(heap, order);
      assert run == Initial(|adjList|);
      while heap.heapSize > 0
        invariant heap.Valid() && heap.graph == graph && fresh(heap) && fresh(graph) && fresh(heap.handlers)
        invariant run == View(heap, order) && Shaped(run) && |prehop| == |adjList|
        invariant Drained(run, adjList, restoring) == Calculated(adjList, restoring)
        decreases heap.heapSize
      {
        ok, order := ProcessMin(heap, restoring, order);
        if !ok {
          return;
        }
        run := View(heap, order);
      }
      ok := true;
    }
  }
}
