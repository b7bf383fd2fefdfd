/** Why the results about routing ask for bounded weights: one weight past the bound, and walking the
    next-hop table need not end. */
module Wrapping {
  import opened Addresses
  import opened Metrics
  import opened Options
  import opened BHeap
  import opened ShortestPaths
  import opened StalePointers
  import opened LinkState
  import opened Routing

  /** Nodes 1 and 2, both out of reach of node 0, linked by 2 -> 1 with the least weight past the
      bound and by 1 -> 2 with weight 0. */
  ghost function Detached(): (adj: AdjList)
    ensures |adj| == 3 && Closed(adj) && !Bounded(adj)
  {
    var adj := [[], [AdjNode(2, 0)], [AdjNode(1, MAX_WEIGHT + 1)]];
    assert adj[2][0].weight > MAX_WEIGHT;
    adj
  }

  /** One turn that relaxes at most one edge. */
  lemma SingleEdgeTurn(run: Run, adj: AdjList)
    requires Closed(adj) && Partitioned(run) && |run.prehop| == |adj| && run.heap.size > 0
    requires |adj[Root(run)]| == 1
    ensures Turn(run, adj, false).Some?
    ensures var u := Root(run);
            var e := adj[u][0];
            var d := Distances(run);
            var r := Turn(run, adj, false).value;
            && u !in run.order && Partitioned(r) && r.order == run.order + [u]
            && e.node < |d| && Distances(r) == Lowered(d, u, e)
            && r.prehop == (if d[e.node] > Plus(d[u], e.weight) then run.prehop[e.node := u] else run.prehop)
            && Drained(run, adj, false) == Drained(r, adj, false)
  {
    hide Labelled, Heapified, DropRoot, Extracted, Relaxed, Lowered;
    var u := Root(run);
    TurnPartitioned(run, adj, false);
    PoppedPartitioned(run, false);
    RelaxedPartitioned(Popped(run, false), u, adj[u][0]);
    RelaxedAllUnfolds(Popped(run, false), u, adj[u], 0);
    assert adj[u][0..] == adj[u] && adj[u][1..] == [];
  }

  lemma EmptyTurn(adj: AdjList)
    requires adj == Detached()
    ensures Initial(3).heap.size == 3 && Root(Initial(3)) == 0
    ensures Turn(Initial(3), adj, false) == Some(Popped(Initial(3), false))
    ensures Root(Popped(Initial(3), false)) == 2
    ensures Drained(Initial(3), adj, false) == Drained(Popped(Initial(3), false), adj, false)
  {
    hide Initial, Popped;
    FirstExtracted(3);
    FirstExtraction(3);
  }

  lemma AfterOne() returns (one: Run)
    ensures Partitioned(one) && one.order == [0] && one.prehop == [3, 3, 3] && one.heap.size == 2 && Root(one) == 2
    ensures Distances(one) == [0, UNREACHED, UNREACHED]
    ensures Calculated(Detached(), false) == Drained(one, Detached(), false)
  {
    hide Initial, Popped, Turn, Labelled, RelaxedAll, Partitioned, Drained;
    InitialPartitioned(3);
    InitialPrehop(3);
    EmptyTurn(Detached());
    PoppedPartitioned(Initial(3), false);
    one := Popped(Initial(3), false);
    PoppedOrder(Initial(3));
  }

  /** The sum wraps to 0. */
  lemma AfterTwo(one: Run) returns (two: Run)
    requires Partitioned(one) && one.order == [0] && one.prehop == [3, 3, 3] && one.heap.size == 2 && Root(one) == 2
    requires Distances(one) == [0, UNREACHED, UNREACHED]
    ensures Partitioned(two) && two.order == [0, 2] && two.prehop == [3, 2, 3] && Distances(two) == [0, 0, UNREACHED]
    ensures Drained(one, Detached(), false) == Drained(two, Detached(), false)
  {
    hide Turn, Labelled, Drained, Root;
    SingleEdgeTurn(one, Detached());
    two := Turn(one, Detached(), false).value;
  }

  lemma AfterThree(two: Run) returns (three: Run)
    requires Partitioned(two) && two.order == [0, 2] && two.prehop == [3, 2, 3] && Distances(two) == [0, 0, UNREACHED]
    ensures Partitioned(three) && |three.order| == 3 && three.prehop == [3, 2, 1]
    ensures Drained(two, Detached(), false) == Drained(three, Detached(), false)
  {
    hide Turn, Labelled, Drained;
    RootIsLive(two);
    SingleEdgeTurn(two, Detached());
    three := Turn(two, Detached(), false).value;
  }

  /** Nodes 1 and 2 end up as each other's predecessor. */
  lemma PredecessorsFormCycle()
    ensures Calculated(Detached(), false).Some?
    ensures var r := Calculated(Detached(), false).value;
            && r.prehop == [3, 2, 1] && |r.heap.graph| == 3 && forall v | 0 <= v < 3 :: r.heap.graph[v].node == v
  {
    hide Turn, Labelled, Calculated, Detached;
    var one := AfterOne();
    var two := AfterTwo(one);
    var three := AfterThree(two);
  }

  lemma RootIsLive(run: Run)
    requires Partitioned(run) && run.heap.size > 0
    ensures Root(run) !in run.order
  {
    assert Root(run) in Live(run.heap);
  }

  lemma PoppedOrder(run: Run)
    requires Shaped(run) && run.heap.size > 0
    ensures Popped(run, false).prehop == run.prehop && Popped(run, false).order == run.order + [Root(run)]
  {
  }

  lemma InitialPrehop(n: nat)
    ensures Initial(n).prehop == seq(n, _ => n)
  {
  }

  lemma CyclicEntries(o: Outcome)
    requires |o.addresses| == |o.graph| == 3 && Distinct(o.addresses) && o.prehop == [3, 2, 1]
    requires forall v | 0 <= v < 3 :: o.graph[v].node == v
    ensures var t := Written(map[], o, 3);
            var a, b := o.addresses[1], o.addresses[2];
            && a in t && b in t
            && t[a].destination == a && t[a].prehop == b && t[b].destination == b && t[b].prehop == a
  {
    assert EntryFor(o, 0) == None;
    assert Written(map[], o, 1) == map[];
    assert Written(map[], o, 2) == map[o.addresses[1] := EntryFor(o, 1).value];
  }

  lemma {:induction false} Bounce(t: NFTable, a: Ipv4Address, b: Ipv4Address, fuel: nat)
    requires a != b && a in t && b in t
    requires t[a].destination == a && t[a].prehop == b && t[b].destination == b && t[b].prehop == a
    ensures Chased(t, t[a], fuel) == Unfinished
    decreases fuel
  {
    if fuel == 0 {
    } else {
      Bounce(t, b, a, fuel - 1);
    }
  }

  // ---------- From databases to walks ----------

  /** A database of three nodes that gives rise to that network: node 2 lists node 3 with metric 0, and
      node 3, whose hello is older, lists node 2 with the least metric past the bound. */
  ghost function DetachedDatabase(): seq<NodeState> {
    [NodeState(1, 0, [], false), NodeState(2, 5, [NFPair(3, 0)], true),
      NodeState(3, 4, [NFPair(2, MAX_WEIGHT + 1)], true)]
  }

  lemma DatabaseIsDetached()
    ensures DistinctAddresses(DetachedDatabase()) && AdjListOf(DetachedDatabase()) == Detached()
    ensures CallOf(DetachedDatabase()).addresses == [1, 2, 3]
  {
    var db := DetachedDatabase();
    var two, three := NFPair(3, 0), NFPair(2, MAX_WEIGHT + 1);
    assert IndexOf(db, 2) == 1 && IndexOf(db, 3) == 2;
    assert MetricOf([two], 3) == 0 && MetricOf([three], 2) == MAX_WEIGHT + 1;
    assert Reconciled(db, 1, two) == 0 && Reconciled(db, 2, three) == MAX_WEIGHT + 1;
    assert [two][..0] == [] && [three][..0] == [];
    assert Row(db, 0, []) == [];
    assert Row(db, 1, [two]) == [AdjNode(2, 0)];
    assert Row(db, 2, [three]) == [AdjNode(1, MAX_WEIGHT + 1)];
    assert AdjListOf(db) == Detached();
  }

  /** After one call on that database the table holds an entry from which the walk never ends: no number
      of look-ups is enough. */
  lemma WalkNeverEnds(fuel: nat)
    ensures ValidCall(CallOf(DetachedDatabase()))
    ensures var t := TableAfter([CallOf(DetachedDatabase())]); 2 in t && Chased(t, t[2], fuel) == Unfinished
  {
    hide Calculated, Written, Detached, DetachedDatabase, EntryFor;
    DatabaseIsDetached();
    PredecessorsFormCycle();
    var call := CallOf(DetachedDatabase());
    var o := OutcomeOf(call);
    CyclicEntries(o);
    OneCall(call);
    Bounce(Written(map[], o, 3), 2, 3, fuel);
  }

  lemma OneCall(call: Call)
    requires ValidCall(call)
    ensures TableAfter([call]) == Written(map[], OutcomeOf(call), |OutcomeOf(call).prehop|)
  {
    assert [call][..0] == [] && TableAfter([]) == map[];
  }

  ghost predicate WeightsWithin(adj: AdjList, limit: NFMetric) {
    forall u, e | 0 <= u < |adj| && e in adj[u] :: e.weight <= limit
  }

  ghost predicate WalksEnd(calls: seq<Call>)
    requires forall c | c in calls :: ValidCall(c)
  {
    forall a | a in TableAfter(calls) :: exists fuel: nat :: ReachesNextHop(TableAfter(calls), a, fuel)
  }

  /** Walking the table always ends, after every sequence of calls with weights up to a limit, if and
      only if the limit is at most 2 * (INFINITE / 3). */
  lemma WalksEndIffBounded(limit: NFMetric)
    ensures (forall calls: seq<Call> | forall c | c in calls :: ValidCall(c) && WeightsWithin(c.adj, limit) ::
              WalksEnd(calls))
            <==> limit <= MAX_WEIGHT
  {
    hide TableAfter, ReachesNextHop, ValidCall;
    if limit <= MAX_WEIGHT {
      forall calls: seq<Call> | forall c | c in calls :: ValidCall(c) && WeightsWithin(c.adj, limit)
        ensures WalksEnd(calls)
      {
        assert forall c | c in calls :: Bounded(c.adj);
        forall a | a in TableAfter(calls)
          ensures exists fuel: nat :: ReachesNextHop(TableAfter(calls), a, fuel)
        {
          WalkAlwaysEnds(calls, a);
        }
      }
    } else {
      DetachedWalkStuck(limit);
    }
  }

  lemma DetachedWalkStuck(limit: NFMetric)
    requires limit > MAX_WEIGHT
    ensures var call := CallOf(DetachedDatabase());
            ValidCall(call) && WeightsWithin(call.adj, limit) && !WalksEnd([call])
  {
    hide TableAfter, ValidCall, Chased, WalksEnd, AdjListOf;
    DatabaseIsDetached();
    WalkNeverEnds(0);
    forall fuel: nat
      ensures Chased(TableAfter([CallOf(DetachedDatabase())]), TableAfter([CallOf(DetachedDatabase())])[2], fuel)
                == Unfinished
    {
      WalkNeverEnds(fuel);
    }
    StuckAt([CallOf(DetachedDatabase())], 2);
  }

  lemma StuckAt(calls: seq<Call>, a: Ipv4Address)
    requires forall c | c in calls :: ValidCall(c)
    requires a in TableAfter(calls)
    requires forall fuel: nat :: Chased(TableAfter(calls), TableAfter(calls)[a], fuel) == Unfinished
    ensures !WalksEnd(calls)
  {
    hide TableAfter, ValidCall, Chased;
  }
}
