/** Dijkstra's algorithm in the variant with the back pointer restored finds the shortest paths. */
module RestoredPaths {
  import opened Metrics
  import opened Options
  import opened BHeap
  import opened ShortestPaths

  /** Pointers mutually inverse and keys equal to distances. */
  ghost predicate Linked(h: Heap) {
    Labelled(h) && BackLinked(h) && Synced(h)
  }

  /** Linked, with the slots in heap order. */
  ghost predicate Fresh(h: Heap) {
    Linked(h) && IsMinHeap(h)
  }

  lemma RebuiltFresh(h: Heap)
    requires Linked(h)
    ensures Fresh(Rebuilt(h))
  {
    RebuildRearranges(h);
    RebuildMakesMinHeap(h);
  }

  /** The heap after the two writes of a successful relaxation of node v, whose handler is slot s. */
  ghost function WithDistance(h: Heap, v: nat, s: nat, distance: NFMetric): Heap
    requires v < |h.graph| && s < |h.handlers|
  {
    h.(graph := h.graph[v := h.graph[v].(distance := distance)],
       handlers := h.handlers[s := h.handlers[s].(distance := distance)])
  }

  lemma WriteToLiveSlotKeepsLinks(h: Heap, v: nat, s: nat, distance: NFMetric)
    requires Linked(h) && s < h.size && h.handlers[s].node == v < |h.graph|
    ensures Linked(WithDistance(h, v, s, distance))
  {
    var h' := WithDistance(h, v, s, distance);
    forall t | 0 <= t < h.size && t != s
      ensures h'.graph[h'.handlers[t].handler.index].handler == At(t)
      ensures h'.handlers[t].distance == h'.graph[h'.handlers[t].handler.index].distance
    {
      assert h.handlers[t].handler == At(h.handlers[t].node) && h.handlers[t].node != v;
    }
  }

  lemma RestoringDropKeepsLinks(h: Heap)
    requires Linked(h) && h.size > 0
    ensures Linked(DropRoot(h, true))
  {
    var h' := DropRoot(h, true);
    var last := h.size - 1;
    forall t | 0 <= t < h'.size
      ensures h'.graph[h'.handlers[t].handler.index].handler == At(t)
      ensures h'.handlers[t].distance == h'.graph[h'.handlers[t].handler.index].distance
    {
      if t > 0 {
        assert h'.handlers[t] == h.handlers[t] && h.handlers[t].node != h.handlers[last].node;
      }
    }
  }

  /** The nodes extracted so far are no farther than u, the others no nearer. */
  ghost predicate Frontier(run: Run, u: nat) {
    && Partitioned(run) && u in run.order
    && (forall a | a in run.order :: Distances(run)[a] <= Distances(run)[u])
    && (forall v | v in Live(run.heap) :: Distances(run)[u] <= Distances(run)[v])
  }

  lemma LoweredFrontier(run: Run, r: Run, u: nat, e: AdjNode)
    requires Frontier(run, u) && e.node < |run.prehop| && Plus(Distances(run)[u], e.weight) >= Distances(run)[u]
    requires Partitioned(r) && r.order == run.order && |r.prehop| == |run.prehop|
    requires Distances(r) == Lowered(Distances(run), u, e)
    ensures Frontier(r, u) && Distances(r)[u] == Distances(run)[u]
    ensures e.node in run.order ==> Distances(run)[e.node] <= Plus(Distances(run)[u], e.weight)
  {
    assert forall v | v in Live(r.heap) :: v in Live(run.heap);
  }

  /** A relaxation that succeeds never touches an extracted node, so it writes a live slot. */
  lemma RelaxedFresh(run: Run, u: nat, e: AdjNode)
    requires Frontier(run, u) && Fresh(run.heap) && e.node < |run.prehop|
    requires e.weight <= MAX_WEIGHT && Distances(run)[u] <= UNREACHED
    ensures e.node in run.order ==> Distances(run)[e.node] <= Plus(Distances(run)[u], e.weight)
    ensures Relaxed(run, u, e.node, e.weight).Some?
    ensures var r := RebuiltRun(Relaxed(run, u, e.node, e.weight).value);
            Frontier(r, u) && Fresh(r.heap) && Distances(r)[u] == Distances(run)[u]
  {
    hide Linked, IsMinHeap, Live, Rebuilt, Labelled;
    PlusExactIffBounded(e.weight);
    RelaxedPartitioned(run, u, e);
    var r := Relaxed(run, u, e.node, e.weight).value;
    LoweredFrontier(run, RebuiltRun(r), u, e);
    WrittenLinked(run, u, e);
    RebuiltFresh(r.heap);
  }

  /** The slot a successful relaxation writes is live, so the copies stay in step. */
  lemma WrittenLinked(run: Run, u: nat, e: AdjNode)
    requires Partitioned(run) && Linked(run.heap) && u < |run.prehop| && e.node < |run.prehop|
    requires e.node in run.order ==> Distances(run)[e.node] <= Plus(Distances(run)[u], e.weight)
    requires Relaxed(run, u, e.node, e.weight).Some?
    ensures Linked(Relaxed(run, u, e.node, e.weight).value.heap)
  {
    var distance := Plus(Distances(run)[u], e.weight);
    if Distances(run)[e.node] > distance {
      var s :| 0 <= s < run.heap.size && run.heap.handlers[s].node == e.node by {
        assert e.node in Live(run.heap);
      }
      assert run.heap.graph[e.node].handler == At(s) by {
        assert run.heap.handlers[s].handler == At(e.node);
      }
      WriteToLiveSlotKeepsLinks(run.heap, e.node, s, distance);
      assert Relaxed(run, u, e.node, e.weight).value.heap == WithDistance(run.heap, e.node, s, distance);
    }
  }

  lemma {:induction false} RelaxedAllFresh(run: Run, adj: AdjList, u: nat, edges: seq<AdjNode>)
    requires Frontier(run, u) && Fresh(run.heap) && Distances(run)[u] <= UNREACHED
    requires forall e | e in edges :: e.node < |run.prehop| && e.weight <= MAX_WEIGHT
    ensures RelaxedAll(run, u, edges).Some?
    ensures Frontier(RelaxedAll(run, u, edges).value, u) && Fresh(RelaxedAll(run, u, edges).value.heap)
    decreases |edges|
  {
    if edges == [] {
    } else {
      RelaxedFresh(run, u, edges[0]);
      RelaxedAllFresh(RebuiltRun(Relaxed(run, u, edges[0].node, edges[0].weight).value), adj, u, edges[1..]);
    }
  }

  lemma RootIsNearest(h: Heap, v: nat)
    requires Fresh(h) && v in Live(h)
    ensures h.size > 0 && v < |h.graph| && h.handlers[0].node < |h.graph|
    ensures h.graph[h.handlers[0].node].distance <= h.graph[v].distance
  {
    var s :| 0 <= s < h.size && h.handlers[s].node == v;
    RootIsMinimal(h, s);
    assert h.handlers[0].handler == At(h.handlers[0].node) && h.handlers[s].handler == At(v);
  }

  lemma PoppedFresh(run: Run)
    requires Partitioned(run) && Fresh(run.heap) && run.heap.size > 0
    requires forall a, v | a in run.order && v in Live(run.heap) :: Distances(run)[a] <= Distances(run)[v]
    ensures Fresh(Popped(run, true).heap)
    ensures Frontier(Popped(run, true), Root(run))
  {
    PoppedOrdered(run);
    PoppedPartitioned(run, true);
    hide Popped, Fresh, Labelled;
    var h, r := run.heap, Popped(run, true);
    forall v | v in Live(r.heap)
      ensures v in Live(h)
    {
      DroppedLive(h, true);
    }
    forall v | v in Live(h)
      ensures Distances(run)[h.handlers[0].node] <= Distances(run)[v]
    {
      RootIsNearest(h, v);
    }
  }

  lemma PoppedOrdered(run: Run)
    requires Partitioned(run) && Fresh(run.heap) && run.heap.size > 0
    ensures Fresh(Popped(run, true).heap)
  {
    var h := run.heap;
    RestoringDropKeepsLinks(h);
    HeapifyRearranges(DropRoot(h, true), 0);
    ExtractMinKeepsOrder(h, true);
  }

  /** What a turn of the outer loop does to the distances. */
  lemma {:induction false} LoweredAllFacts(d: seq<NFMetric>, u: nat, edges: seq<AdjNode>)
    requires u < |d| && d[u] <= UNREACHED
    requires forall e | e in edges :: e.node < |d| && e.weight <= MAX_WEIGHT
    ensures var d' := LoweredAll(d, u, edges);
            && d'[u] == d[u]
            && (forall x | 0 <= x < |d| :: d'[x] <= d[x])
            && (forall x | 0 <= x < |d| :: d'[x] == d[x] || d[u] <= d'[x])
            && (forall x | 0 <= x < |d| && (forall e | e in edges :: e.node != x) :: d'[x] == d[x])
            && (forall e | e in edges :: d'[e.node] <= d[u] + e.weight)
    decreases |edges|
  {
    if edges == [] {
    } else {
      PlusExactIffBounded(edges[0].weight);
      LoweredAllFacts(Lowered(d, u, edges[0]), u, edges[1..]);
      assert forall e | e in edges :: e == edges[0] || e in edges[1..];
    }
  }

  /** No edge out of the given nodes could be relaxed once more. */
  ghost predicate Tight(adj: AdjList, d: seq<NFMetric>, order: seq<nat>)
    requires Closed(adj) && |d| == |adj|
  {
    forall a, e | a in order && a < |adj| && e in adj[a] :: d[e.node] <= d[a] + e.weight
  }

  lemma TightEverywhere(adj: AdjList, d: seq<NFMetric>, order: seq<nat>)
    requires Closed(adj) && |d| == |adj| && Tight(adj, d, order)
    requires forall v: nat | v < |adj| :: v in order
    ensures NoEdgeRelaxes(adj, d)
  {
    forall u: nat, v: nat, w: NFMetric | Edge(adj, u, v, w)
      ensures d[v] <= d[u] + w
    {
      assert u in order && AdjNode(v, w) in adj[u];
    }
  }

  lemma InitialTight(adj: AdjList)
    requires Closed(adj)
    ensures |Distances(Initial(|adj|))| == |adj| && Tight(adj, Distances(Initial(|adj|)), Initial(|adj|).order)
  {
    hide Labelled, Built, HeapifiedDown;
  }

  lemma LoweredAllTight(adj: AdjList, d: seq<NFMetric>, order: seq<nat>, u: nat)
    requires Closed(adj) && Bounded(adj) && |d| == |adj| && u < |adj| && d[u] <= UNREACHED
    requires Tight(adj, d, order) && forall a | a in order && a < |adj| :: d[a] <= d[u]
    ensures Tight(adj, LoweredAll(d, u, adj[u]), order + [u])
  {
    LoweredAllFacts(d, u, adj[u]);
  }

  /** Every edge out of an extracted node is tight, and extracted nodes are the nearest ones. */
  ghost predicate Settled(adj: AdjList, run: Run)
    requires Closed(adj)
  {
    && Partitioned(run) && |run.prehop| == |adj|
    && Tight(adj, Distances(run), run.order)
    && (forall a, v | a in run.order && v in Live(run.heap) :: Distances(run)[a] <= Distances(run)[v])
  }

  lemma TurnSettles(run: Run, adj: AdjList)
    requires Closed(adj) && Bounded(adj) && Settled(adj, run) && Fresh(run.heap) && run.heap.size > 0
    requires Forest(adj, Distances(run), run.prehop)
    ensures Turn(run, adj, true).Some?
    ensures Settled(adj, Turn(run, adj, true).value) && Fresh(Turn(run, adj, true).value.heap)
  {
    var u := Root(run);
    PoppedPartitioned(run, true);
    PoppedFresh(run);
    RelaxedAllFresh(Popped(run, true), adj, u, adj[u]);
    TurnPartitioned(run, adj, true);
    LoweredAllTight(adj, Distances(run), run.order, u);
  }

  lemma {:induction false} DrainedSettles(run: Run, adj: AdjList)
    requires Closed(adj) && Bounded(adj) && Settled(adj, run) && Fresh(run.heap)
    requires Forest(adj, Distances(run), run.prehop)
    ensures Drained(run, adj, true).Some? && Settled(adj, Drained(run, adj, true).value)
    decreases run.heap.size
  {
    hide Labelled, Forest, LoweredAll, Turn, RelaxedAll, Fresh, Tight;
    if run.heap.size == 0 {
    } else {
      TurnSettles(run, adj);
      TurnKeepsForest(run, adj, true);
      DrainedSettles(Turn(run, adj, true).value, adj);
    }
  }

  lemma InitialFresh(n: nat)
    ensures Fresh(Initial(n).heap)
  {
    var h := Attached(InitialGraph(n)).(size := n);
    assert Linked(h);
    HeapifyDownRearranges(h, n / 2);
    HeapifyDownOrders(h, n / 2);
  }

  lemma RestoredLeavesNoEdge(adj: AdjList)
    requires Closed(adj) && Bounded(adj)
    ensures Calculated(adj, true).Some? && NoEdgeRelaxes(adj, Distances(Calculated(adj, true).value))
  {
    hide Initial, Drained, Forest, Fresh, Labelled, Tight, NoEdgeRelaxes;
    InitialPartitioned(|adj|);
    InitialFresh(|adj|);
    InitialForest(adj);
    InitialTight(adj);
    DrainedSettles(Initial(|adj|), adj);
    EveryNodeExtractedOnce(adj, true);
    TightEverywhere(adj, Distances(Calculated(adj, true).value), Calculated(adj, true).value.order);
  }

  /** With the one missing back pointer restored, Calculate is Dijkstra's algorithm: for every
      adjacency list with bounded weights each distance is the least weight of any walk from node 0,
      capped at UNREACHED, and the predecessor path of each reached node attains it exactly. */
  lemma RestoredCalculateIsShortest(adj: AdjList)
    requires Closed(adj) && Bounded(adj)
    ensures Calculated(adj, true).Some?
    ensures Shortest(adj, Distances(Calculated(adj, true).value))
    ensures PathsExact(adj, Distances(Calculated(adj, true).value), Calculated(adj, true).value.prehop)
  {
    RestoredLeavesNoEdge(adj);
    ShortestIffNoEdgeRelaxes(adj, true);
  }
}
