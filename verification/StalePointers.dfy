/** When the source's Calculate, which leaves the back pointer of the slot moved to the root stale,
    still finds shortest paths: wherever the least walks need at most two hops, and not beyond. */
module StalePointers {
  import opened Metrics
  import opened Options
  import opened BHeap
  import opened ShortestPaths
  import opened RestoredPaths

  // ---------- Walks of two hops ----------

  /** Every edge out of node 0, and every edge after one, has been relaxed, as far as the nodes in
      between have been extracted. */
  ghost predicate TwoHopsDone(adj: AdjList, d: seq<NFMetric>, order: seq<nat>)
    requires Closed(adj) && |d| == |adj|
  {
    && (order != [] ==> forall e | e in adj[0] :: d[e.node] <= e.weight)
    && (forall first, e | first in adj[0] && first.node in order && e in adj[first.node] ::
         d[e.node] <= first.weight + e.weight)
  }

  /** Distances only fall, and node 0 is extracted first, so it does not matter in which order the
      others are. */
  lemma TurnDoesTwoHops(adj: AdjList, d: seq<NFMetric>, order: seq<nat>, u: nat)
    requires Closed(adj) && Bounded(adj) && |d| == |adj| && u < |adj|
    requires d[0] == 0 && d[u] <= UNREACHED && TwoHopsDone(adj, d, order)
    requires order == [] ==> u == 0
    ensures TwoHopsDone(adj, LoweredAll(d, u, adj[u]), order + [u])
  {
    LoweredAllFacts(d, u, adj[u]);
  }

  lemma {:induction false} DrainedDoesTwoHops(run: Run, adj: AdjList)
    requires Closed(adj) && Bounded(adj)
    requires Partitioned(run) && Forest(adj, Distances(run), run.prehop) && TwoHopsDone(adj, Distances(run), run.order)
    requires run.order == [] ==> run.heap.size > 0 && Root(run) == 0
    ensures Drained(run, adj, false).Some?
    ensures TwoHopsDone(adj, Distances(Drained(run, adj, false).value), Drained(run, adj, false).value.order)
    decreases run.heap.size
  {
    hide Labelled, Forest, LoweredAll, Turn, RelaxedAll, TwoHopsDone;
    if run.heap.size == 0 {
    } else {
      TurnKeepsForest(run, adj, false);
      TurnDoesTwoHops(adj, Distances(run), run.order, Root(run));
      DrainedDoesTwoHops(Turn(run, adj, false).value, adj);
    }
  }

  /** Node 0 is always the first node extracted. */
  lemma FirstExtracted(n: nat)
    requires n > 0
    ensures Initial(n).heap.size > 0 && Initial(n).heap.handlers[0].node == 0
  {
    InitialPartitioned(n);
    InitialFresh(n);
    RootIsNearest(Initial(n).heap, 0);
    var root := Initial(n).heap.handlers[0].node;
    assert Initial(n).heap.graph[root].distance == Distances(Initial(n))[root];
    assert Initial(n).heap.graph[0].distance == Distances(Initial(n))[0];
  }

  /** The source's Calculate, on every bounded graph and whatever order the heap yields: no distance
      exceeds the weight of any walk of at most two hops. */
  lemma TwoHopWalksBound(adj: AdjList, walk: Walk)
    requires Closed(adj) && Bounded(adj) && IsWalk(adj, walk) && Hops(walk) <= 2
    ensures Calculated(adj, false).Some? && End(walk) < |adj|
    ensures Distances(Calculated(adj, false).value)[End(walk)] <= Weight(walk)
  {
    hide Initial, Drained, Forest, Labelled, TwoHopsDone;
    InitialPartitioned(|adj|);
    InitialForest(adj);
    FirstExtracted(|adj|);
    NothingDone(adj);
    DrainedDoesTwoHops(Initial(|adj|), adj);
    EveryNodeExtractedOnce(adj, false);
    PrehopsFormForest(adj, false);
    var r := Calculated(adj, false).value;
    DoneBounds(adj, Distances(r), r.order, walk);
  }

  lemma NothingDone(adj: AdjList)
    requires Closed(adj)
    ensures |Distances(Initial(|adj|))| == |adj| && TwoHopsDone(adj, Distances(Initial(|adj|)), Initial(|adj|).order)
  {
    hide Labelled, Built, HeapifiedDown;
  }

  lemma DoneBounds(adj: AdjList, d: seq<NFMetric>, order: seq<nat>, walk: Walk)
    requires Closed(adj) && |d| == |adj| && d[0] == 0 && TwoHopsDone(adj, d, order)
    requires forall v: nat | v < |adj| :: v in order
    requires IsWalk(adj, walk) && Hops(walk) <= 2
    ensures End(walk) < |adj| && d[End(walk)] <= Weight(walk)
  {
    assert 0 in order;
    if walk.Hop? {
      var e := AdjNode(walk.node, walk.weight);
      assert Edge(adj, End(walk.prev), walk.node, walk.weight) && e in adj[End(walk.prev)];
      if walk.prev.Hop? {
        var first := AdjNode(walk.prev.node, walk.prev.weight);
        assert Hops(walk) == 1 + Hops(walk.prev) == 2 + Hops(walk.prev.prev);
        assert walk.prev.prev.Origin? && Edge(adj, 0, first.node, first.weight) && first in adj[0];
      }
    }
  }

  ghost predicate Correct(adj: AdjList)
    requires Closed(adj)
  {
    Calculated(adj, false).Some? && Shortest(adj, Distances(Calculated(adj, false).value))
  }

  /** No more than h hops are needed to get anywhere at the least weight. */
  ghost predicate LeastWithin(adj: AdjList, h: nat) {
    forall walk | IsWalk(adj, walk) && Weight(walk) < UNREACHED :: exists other ::
      NoHeavier(adj, walk, other) && Hops(other) <= h
  }

  ghost predicate NoHeavier(adj: AdjList, walk: Walk, other: Walk) {
    IsWalk(adj, other) && End(other) == End(walk) && Weight(other) <= Weight(walk)
  }

  lemma LighterWithin(adj: AdjList, h: nat, walk: Walk) returns (other: Walk)
    requires LeastWithin(adj, h) && IsWalk(adj, walk) && Weight(walk) < UNREACHED
    ensures NoHeavier(adj, walk, other) && Hops(other) <= h
  {
    other :| NoHeavier(adj, walk, other) && Hops(other) <= h;
  }

  /** The source's Calculate is right on every bounded graph, of any size, whose least walks need at
      most two hops. */
  lemma TwoHopGraphsAreRight(adj: AdjList)
    requires Closed(adj) && Bounded(adj) && LeastWithin(adj, 2)
    ensures Correct(adj)
  {
    hide Calculated, Labelled, Bounded, LeastWithin;
    PrehopsFormForest(adj, false);
    var r := Calculated(adj, false).value;
    var d := Distances(r);
    forall walk | IsWalk(adj, walk) && End(walk) < |adj|
      ensures d[End(walk)] <= Weight(walk)
    {
      if Weight(walk) < UNREACHED {
        var other := LighterWithin(adj, 2, walk);
        TwoHopWalksBound(adj, other);
      }
    }
    forall v | 0 <= v < |adj| && d[v] < UNREACHED
      ensures Attained(adj, v, d[v])
    {
      if v == 0 {
        assert IsWalk(adj, Origin) && End(Origin) == 0 && Weight(Origin) == 0;
      } else {
        var walk :| PathWithin(adj, r.prehop, v, d[v], walk);
        assert IsWalk(adj, walk) && End(walk) == v && Weight(walk) == d[v];
      }
    }
  }

  // ---------- Up to three nodes ----------

  /** Among three nodes every walk can be cut down to two hops. */
  lemma {:induction false} CutToTwoHops(adj: AdjList, walk: Walk) returns (other: Walk)
    requires Closed(adj) && |adj| <= 3 && IsWalk(adj, walk)
    ensures NoHeavier(adj, walk, other) && Hops(other) <= 2
  {
    if walk.Origin? {
      other := Origin;
    } else {
      var prev := CutToTwoHops(adj, walk.prev);
      other := CutLastHop(adj, prev, walk.node, walk.weight);
    }
  }

  lemma CutLastHop(adj: AdjList, prev: Walk, v: nat, w: NFMetric) returns (other: Walk)
    requires Closed(adj) && |adj| <= 3 && IsWalk(adj, prev) && Hops(prev) <= 2 && Edge(adj, End(prev), v, w)
    ensures NoHeavier(adj, Hop(prev, v, w), other) && Hops(other) <= 2
  {
    assert AdjNode(v, w) in adj[End(prev)] && v < |adj|;
    if v == 0 {
      other := Origin;
    } else if End(prev) == 0 {
      other := Hop(Origin, v, w);
    } else if Hops(prev) <= 1 {
      other := Hop(prev, v, w);
    } else if End(prev) == v {
      other := prev;
    } else {
      var front := prev.prev;
      assert Hops(prev) == 1 + Hops(front) == 2 + Hops(front.prev);
      assert Weight(prev) == Weight(front) + prev.weight && Weight(front) == Weight(front.prev) + front.weight;
      assert AdjNode(prev.node, prev.weight) in adj[End(front)] && prev.node < |adj| && Hops(front) == 1;
      assert AdjNode(front.node, front.weight) in adj[End(front.prev)] && front.node < |adj|;
      if End(front) == 0 {
        other := Hop(Hop(Origin, prev.node, prev.weight), v, w);
        assert IsWalk(adj, other.prev) && Weight(other.prev) == prev.weight && Hops(other.prev) == 1;
      } else if End(front) == End(prev) {
        other := Hop(front, v, w);
      } else {
        other := front;
      }
    }
  }

  lemma SmallGraphsAreRight(adj: AdjList)
    requires Closed(adj) && Bounded(adj) && |adj| <= 3
    ensures Correct(adj)
  {
    forall walk | IsWalk(adj, walk) && Weight(walk) < UNREACHED
      ensures exists other :: NoHeavier(adj, walk, other) && Hops(other) <= 2
    {
      var other := CutToTwoHops(adj, walk);
    }
    TwoHopGraphsAreRight(adj);
  }

  // ---------- Three hops among four nodes and more ----------

  /** Edges 0 -> n-1 (1), 0 -> 1 (10), n-1 -> 1 (1) and 1 -> 2 (1). */
  ghost function Misleading(n: nat): (adj: AdjList)
    requires n >= 4
    ensures |adj| == n && Closed(adj) && Bounded(adj)
  {
    seq(n, i requires 0 <= i < n =>
      if i == 0 then [AdjNode(n - 1, 1), AdjNode(1, 10)]
      else if i == 1 then [AdjNode(2, 1)]
      else if i == n - 1 then [AdjNode(1, 1)]
      else [])
  }

  lemma OrderedSlotIsLeftAlone(h: Heap, k: nat)
    requires Sound(h) && IsMinHeap(h) && k <= |h.handlers|
    ensures Heapified(h, k) == h
  {
    if k < h.size {
      assert Parent(Left(k)) == k == Parent(Right(k));
      assert Left(k) < h.size ==> Key(h, k) <= Key(h, Left(k));
      assert Right(k) < h.size ==> Key(h, k) <= Key(h, Right(k));
      assert Least(h, k) == k;
    }
  }

  lemma {:induction false} OrderedHeapIsLeftAlone(h: Heap, k: nat)
    requires Sound(h) && IsMinHeap(h) && k <= |h.handlers|
    ensures HeapifiedDown(h, k) == h
    decreases k
  {
    OrderedSlotIsLeftAlone(h, k);
    if k == 0 {
    } else {
      OrderedHeapIsLeftAlone(h, k - 1);
    }
  }

  /** The state right after node 0 has been extracted: all keys are equal, slot 0 stands for node
      n-1, and the back pointer of that node still designates the dead slot n-1. */
  ghost predicate LacksNodeZero(run: Run, n: nat) {
    && n >= 2 && Shaped(run) && |run.prehop| == n && run.heap.size == n - 1
    && (forall v | 0 <= v < n :: run.heap.graph[v] == NodeDistance(v, if v == 0 then 0 else UNREACHED, At(v)))
    && run.heap.handlers[0] == NodeDistance(n - 1, UNREACHED, At(n - 1))
    && (forall s | 0 < s < n :: run.heap.handlers[s] == NodeDistance(s, UNREACHED, At(s)))
  }

  lemma InitialHeap(n: nat)
    ensures Initial(n).heap == Attached(InitialGraph(n)).(size := n)
  {
    hide Heapified;
    OrderedHeapIsLeftAlone(Attached(InitialGraph(n)).(size := n), n / 2);
  }

  lemma FirstExtraction(n: nat)
    requires n >= 2
    ensures LacksNodeZero(Popped(Initial(n), false), n)
  {
    hide Built, Heapified, HeapifiedDown, Initial;
    InitialHeap(n);
    OrderedSlotIsLeftAlone(DropRoot(Initial(n).heap, false), 0);
  }

  /** After a rebuild the root is the node of the one live record with the least key. */
  lemma RebuiltRoot(h: Heap, s: nat)
    requires Sound(h) && s < h.size
    requires forall t | 0 <= t < h.size && t != s :: h.handlers[t].distance > h.handlers[s].distance
    ensures Rebuilt(h).size == h.size && Rebuilt(h).handlers[0] == h.handlers[s]
  {
    RebuildMakesMinHeap(h);
    RebuildRearranges(h);
    var r := Rebuilt(h);
    assert h.handlers[..h.size][s] in multiset(r.handlers[..h.size]);
    var t :| 0 <= t < h.size && r.handlers[t] == h.handlers[s];
    RootIsMinimal(r, t);
    assert r.handlers[..h.size][0] in multiset(h.handlers[..h.size]);
    var t' :| 0 <= t' < h.size && h.handlers[t'] == r.handlers[0];
  }

  /** The new distance of node n-1 goes to the dead slot, so the live keys stay equal. */
  lemma FirstRelaxation(run: Run, n: nat) returns (r: Run)
    requires n >= 4 && LacksNodeZero(run, n)
    ensures Relaxed(run, 0, n - 1, 1) == Some(r) && RebuiltRun(r) == r
    ensures r.heap.size == n - 1 && |r.prehop| == n
    ensures r.heap.graph[0].distance == 0 && r.heap.graph[1] == NodeDistance(1, UNREACHED, At(1))
    ensures r.heap.handlers[1].node == 1
    ensures forall s | 0 <= s < n - 1 :: r.heap.handlers[s].distance == UNREACHED
  {
    r := Relaxed(run, 0, n - 1, 1).value;
    OrderedHeapIsLeftAlone(r.heap, r.heap.size / 2);
  }

  lemma SecondRelaxation(first: Run, n: nat) returns (r: Run)
    requires n >= 4 && Shaped(first) && first.heap.size == n - 1 && |first.prehop| == n
    requires first.heap.graph[0].distance == 0 && first.heap.graph[1] == NodeDistance(1, UNREACHED, At(1))
    requires first.heap.handlers[1].node == 1
    requires forall s | 0 <= s < n - 1 :: first.heap.handlers[s].distance == UNREACHED
    ensures Relaxed(first, 0, 1, 10) == Some(r) && Shaped(r) && |r.prehop| == n
    ensures RebuiltRun(r).heap.size == n - 1 && RebuiltRun(r).heap.handlers[0].node == 1
  {
    r := Relaxed(first, 0, 1, 10).value;
    RebuiltRoot(r.heap, 1);
  }

  /** So node 1, whose slot is live, is extracted next, at distance 10. */
  lemma SecondExtraction(n: nat)
    requires n >= 4
    ensures Turn(Initial(n), Misleading(n), false).Some?
    ensures Turn(Initial(n), Misleading(n), false).value.heap.size > 0
    ensures Turn(Initial(n), Misleading(n), false).value.heap.handlers[0].node == 1
  {
    hide Initial, Popped, RelaxedAll, Relaxed, Labelled, LacksNodeZero;
    FirstExtracted(n);
    FirstExtraction(n);
    var edges := Misleading(n)[0];
    assert edges == [AdjNode(n - 1, 1), AdjNode(1, 10)];
    var run := Popped(Initial(n), false);
    var first := FirstRelaxation(run, n);
    var second := SecondRelaxation(first, n);
    TwoEdges(run, first, second, edges);
  }

  lemma TwoEdges(run: Run, first: Run, second: Run, edges: seq<AdjNode>)
    requires Shaped(run) && Shaped(first) && |run.prehop| == |first.prehop| > 0
    requires |edges| == 2 && edges[0].node < |run.prehop| && edges[1].node < |run.prehop|
    requires Relaxed(run, 0, edges[0].node, edges[0].weight) == Some(first) && RebuiltRun(first) == first
    requires Relaxed(first, 0, edges[1].node, edges[1].weight) == Some(second)
    ensures RelaxedAll(run, 0, edges) == Some(RebuiltRun(second))
  {
    RelaxedAllUnfolds(run, 0, edges, 0);
    RelaxedAllUnfolds(run, 0, edges, 1);
    assert edges[0..] == edges && edges[2..] == [];
  }

  /** Only node 1 has an edge to node 2. */
  lemma OthersSpareNodeTwo(n: nat, d: seq<NFMetric>, u: nat)
    requires n >= 4 && |d| == n && u < n && u != 1 && d[u] <= UNREACHED
    ensures LoweredAll(d, u, Misleading(n)[u])[2] == d[2]
  {
    LoweredAllFacts(d, u, Misleading(n)[u]);
  }

  lemma {:induction false} NodeTwoKeepsItsDistance(run: Run, n: nat)
    requires n >= 4 && Partitioned(run) && Forest(Misleading(n), Distances(run), run.prehop)
    requires 1 in run.order
    ensures Drained(run, Misleading(n), false).Some?
    ensures Distances(Drained(run, Misleading(n), false).value)[2] == Distances(run)[2]
    decreases run.heap.size
  {
    hide Labelled, Forest, LoweredAll, Turn, RelaxedAll, Misleading;
    if run.heap.size == 0 {
    } else {
      TurnKeepsForest(run, Misleading(n), false);
      OthersSpareNodeTwo(n, Distances(run), Root(run));
      NodeTwoKeepsItsDistance(Turn(run, Misleading(n), false).value, n);
    }
  }

  lemma DistancesOfTwoTurns(n: nat, d: seq<NFMetric>)
    requires n >= 4 && |d| == n && d[0] == 0 && d[1] == d[2] == UNREACHED
    ensures LoweredAll(LoweredAll(d, 0, Misleading(n)[0]), 1, Misleading(n)[1])[2] == 11
  {
    var first, second := AdjNode(n - 1, 1), AdjNode(1, 10);
    assert Misleading(n)[0] == [first, second] && [first, second][1..] == [second];
    assert LoweredAll(d, 0, [first, second]) == LoweredAll(Lowered(d, 0, first), 0, [second]);
    assert LoweredAll(Lowered(d, 0, first), 0, [second]) == Lowered(Lowered(d, 0, first), 0, second);
    var d1 := LoweredAll(d, 0, Misleading(n)[0]);
    assert LoweredAll(d1, 1, Misleading(n)[1]) == Lowered(d1, 1, AdjNode(2, 1));
  }

  lemma NodeTwoGetsEleven(n: nat)
    requires n >= 4
    ensures Calculated(Misleading(n), false).Some?
    ensures Distances(Calculated(Misleading(n), false).value)[2] == 11
  {
    hide Labelled, Forest, LoweredAll, Turn, RelaxedAll, Initial;
    var adj := Misleading(n);
    InitialPartitioned(n);
    InitialForest(adj);
    FirstExtracted(n);
    SecondExtraction(n);
    TurnKeepsForest(Initial(n), adj, false);
    var one := Turn(Initial(n), adj, false).value;
    TurnKeepsForest(one, adj, false);
    DistancesOfTwoTurns(n, Distances(Initial(n)));
    NodeTwoKeepsItsDistance(Turn(one, adj, false).value, n);
  }

  lemma LightWalk(n: nat) returns (walk: Walk)
    requires n >= 4
    ensures IsWalk(Misleading(n), walk) && End(walk) == 2 && Weight(walk) == 3
  {
    var adj := Misleading(n);
    assert adj[0][0] == AdjNode(n - 1, 1) && adj[n - 1][0] == AdjNode(1, 1) && adj[1][0] == AdjNode(2, 1);
    assert IsWalk(adj, Origin) && End(Origin) == Weight(Origin) == 0;
    var first := Hop(Origin, n - 1, 1);
    var second := Hop(first, 1, 1);
    walk := Hop(second, 2, 1);
    assert IsWalk(adj, first) && Weight(first) == 1;
    assert IsWalk(adj, second) && Weight(second) == 2;
  }

  /** The source gives node 2 the distance 11 although a walk of weight 3 leads there. */
  lemma MisleadingIsWrong(n: nat)
    requires n >= 4
    ensures Calculated(Misleading(n), false).Some?
    ensures Distances(Calculated(Misleading(n), false).value)[2] == 11
    ensures exists walk :: IsWalk(Misleading(n), walk) && End(walk) == 2 && Weight(walk) == 3
    ensures !Correct(Misleading(n)) && LeastWithin(Misleading(n), 3)
  {
    NodeTwoGetsEleven(n);
    var walk := LightWalk(n);
    forall walk | IsWalk(Misleading(n), walk)
      ensures NoHeavier(Misleading(n), walk, walk) && Hops(walk) <= 3
    {
      NoLongWalk(n, walk);
    }
  }

  lemma {:induction false} NoLongWalk(n: nat, walk: Walk)
    requires n >= 4 && IsWalk(Misleading(n), walk)
    ensures if End(walk) == 0 then Hops(walk) == 0 else if End(walk) == n - 1 then Hops(walk) == 1
            else if End(walk) == 1 then Hops(walk) <= 2 else End(walk) == 2 && Hops(walk) <= 3
  {
    if walk.Hop? {
      NoLongWalk(n, walk.prev);
      assert Edge(Misleading(n), End(walk.prev), walk.node, walk.weight);
    }
  }

  /** The source's Calculate finds the shortest distances of every bounded graph of n nodes whose least
      walks need at most h hops if and only if h is at most two or n at most three. */
  lemma RightIffTwoHopsOrThreeNodes(n: nat, h: nat)
    requires n > 0
    ensures (forall adj: AdjList | |adj| == n && Closed(adj) && Bounded(adj) && LeastWithin(adj, h) :: Correct(adj))
            <==> h <= 2 || n <= 3
  {
    hide Correct, Misleading;
    if h <= 2 || n <= 3 {
      forall adj: AdjList | |adj| == n && Closed(adj) && Bounded(adj) && LeastWithin(adj, h)
        ensures Correct(adj)
      {
        if n <= 3 {
          SmallGraphsAreRight(adj);
        } else {
          MoreHopsAllowed(adj, h, 2);
          TwoHopGraphsAreRight(adj);
        }
      }
    } else {
      MisleadingIsWrong(n);
      MoreHopsAllowed(Misleading(n), 3, h);
    }
  }

  lemma MoreHopsAllowed(adj: AdjList, h: nat, h': nat)
    requires LeastWithin(adj, h) && h <= h'
    ensures LeastWithin(adj, h')
  {
    forall walk | IsWalk(adj, walk) && Weight(walk) < UNREACHED
      ensures exists other :: NoHeavier(adj, walk, other) && Hops(other) <= h'
    {
      var other :| NoHeavier(adj, walk, other) && Hops(other) <= h;
    }
  }

  /** Whatever the size: the source is right on every bounded graph whose least walks need at most h
      hops if and only if h is at most two. */
  lemma RightIffTwoHops(h: nat)
    ensures (forall adj: AdjList | Closed(adj) && Bounded(adj) && LeastWithin(adj, h) :: Correct(adj)) <==> h <= 2
  {
    hide Correct, Misleading;
    forall adj: AdjList | Closed(adj) && Bounded(adj) && LeastWithin(adj, h) && h <= 2
      ensures Correct(adj)
    {
      RightIffTwoHopsOrThreeNodes(|adj|, h);
    }
    MisleadingIsWrong(4);
    if h >= 3 {
      MoreHopsAllowed(Misleading(4), 3, h);
    }
  }
}
