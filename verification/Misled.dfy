/** What the table says of distances: the least ones where the least walks need at most two hops, and not
    beyond, as a database shows. */
module Misled {
  import opened Addresses
  import opened Metrics
  import opened Options
  import opened BHeap
  import opened ShortestPaths
  import opened StalePointers
  import opened LinkState
  import opened Routing

  /** Node 1 lists node 4 with metric 1 and node 2 with metric 10; nodes 4 and 2 list 2 and 3 with 1. */
  ghost function MisleadingDatabase(): seq<NodeState> {
    [NodeState(1, 0, [NFPair(4, 1), NFPair(2, 10)], false), NodeState(2, 1, [NFPair(3, 1)], true),
     NodeState(3, 1, [], true), NodeState(4, 1, [NFPair(2, 1)], true)]
  }

  lemma RowsOfDatabase()
    ensures var db := MisleadingDatabase();
            && Row(db, 0, db[0].pairs) == [AdjNode(3, 1), AdjNode(1, 10)] && Row(db, 1, db[1].pairs) == [AdjNode(2, 1)]
            && Row(db, 2, db[2].pairs) == [] && Row(db, 3, db[3].pairs) == [AdjNode(1, 1)]
  {
    var db := MisleadingDatabase();
    var first, second, last := NFPair(4, 1), NFPair(2, 10), NFPair(2, 1);
    assert IndexOf(db, 2) == 1 && IndexOf(db, 3) == 2 && IndexOf(db, 4) == 3;
    assert MetricOf([last], 1) == 0 && MetricOf([NFPair(3, 1)], 1) == 0 && MetricOf([NFPair(3, 1)], 4) == 0;
    assert Reconciled(db, 0, first) == 1 && Reconciled(db, 0, second) == 10;
    assert [first, second][..1] == [first] && [first][..0] == [] && [last][..0] == [] && [NFPair(3, 1)][..0] == [];
    assert Row(db, 0, [first]) == [AdjNode(3, 1)];
  }

  lemma DatabaseIsMisleading()
    ensures DistinctAddresses(MisleadingDatabase()) && AdjListOf(MisleadingDatabase()) == Misleading(4)
    ensures CallOf(MisleadingDatabase()).addresses == [1, 2, 3, 4]
  {
    hide Row;
    RowsOfDatabase();
    assert AdjListOf(MisleadingDatabase()) == Misleading(4);
  }

  lemma MisleadingOutcome()
    ensures ValidCall(CallOf(MisleadingDatabase()))
    ensures var o := OutcomeOf(CallOf(MisleadingDatabase()));
            Treelike(o) && o.addresses == [1, 2, 3, 4] && Reached(o, 2) && o.graph[2].distance == 11
  {
    hide Calculated, MisleadingDatabase, Misleading, AdjListOf, Forest, Treelike;
    DatabaseIsMisleading();
    CallIsValid(MisleadingDatabase());
    MisleadingIsWrong(4);
    PrehopsFormForest(Misleading(4), false);
    BoundedIsTreelike(CallOf(MisleadingDatabase()));
  }

  lemma EntryWritten(o: Outcome)
    requires Treelike(o) && o.addresses == [1, 2, 3, 4] && Reached(o, 2) && o.graph[2].distance == 11
    ensures var t := Tabulated(map[], o); 3 in t && t[3].destination == 3 && t[3].nf_etox == 11
  {
    hide Written;
    var a := [1, 2, 3, 4];
    assert a[1..] == [2, 3, 4] && a[1..][1..] == [3, 4];
    assert Position(o.addresses, 3) == 2;
    WrittenEntry(map[], o, 4, 3);
  }

  lemma OneCall(call: Call)
    requires ValidCall(call)
    ensures TableAfter([call]) == Tabulated(map[], OutcomeOf(call))
  {
    hide Tabulated;
    assert [call][..0] == [];
  }

  /** After one call on the database the table says that node 3 is at distance 11, although a walk of
      weight 3 leads there. */
  ghost predicate Misleads(nodes: seq<NodeState>) {
    && |nodes| > 0 && DistinctAddresses(nodes) && ValidCall(CallOf(nodes))
    && var t := TableAfter([CallOf(nodes)]);
    && 3 in t && t[3].destination == 3 && t[3].nf_etox == 11
    && exists walk :: IsWalk(AdjListOf(nodes), walk) && End(walk) == 2 && Weight(walk) == 3
  }

  lemma TableIsMisled()
    ensures Misleads(MisleadingDatabase())
  {
    hide Tabulated, TableAfter, Misleading, AdjListOf, Treelike, Calculated;
    MisleadingOutcome();
    var call := CallOf(MisleadingDatabase());
    EntryWritten(OutcomeOf(call));
    OneCall(call);
    DatabaseIsMisleading();
    MisleadingIsWrong(4);
  }

  // ---------- Where the table is right ----------

  /** The walk leads to the node at the least weight. */
  ghost predicate IsLightest(adj: AdjList, walk: Walk, v: nat) {
    IsWalk(adj, walk) && End(walk) == v && forall other | IsWalk(adj, other) && End(other) == v ::
      Weight(walk) <= Weight(other)
  }

  /** What an entry should say: its metric is that of a lightest walk, it leaves through interface 1, and
      looking the table up ends, after as many look-ups as there are further hops, at the entry of the first
      hop of that walk. */
  ghost predicate RoutesAlong(addresses: seq<Ipv4Address>, table: NFTable, a: Ipv4Address, walk: Walk) {
    && walk.Hop? && FirstHop(walk) < |addresses| && a in table
    && table[a].nf_etox == Weight(walk) && table[a].interface == 1
    && var gateway := addresses[FirstHop(walk)];
    && gateway in table && table[gateway].destination == table[gateway].prehop == gateway
    && Chased(table, table[a], Hops(walk)) == Found(table[gateway])
  }

  lemma OutcomeFacts(call: Call)
    requires ValidCall(call)
    ensures Calculated(call.adj, false).Some?
    ensures var o, r := OutcomeOf(call), Calculated(call.adj, false).value;
            && o.addresses == call.addresses && o.prehop == r.prehop && |o.graph| == |Distances(r)| == |call.adj|
            && forall v | 0 <= v < |o.graph| :: o.graph[v].distance == Distances(r)[v]
  {
    EveryNodeExtractedOnce(call.adj, false);
  }

  /** After a call on a network whose least walks need at most two hops, whatever was in the table before: it
      has a new entry for exactly the nodes other than the first that some walk below the limit leads to, and
      that entry routes along a lightest walk. */
  lemma TwoHopTablesAreRight(table: NFTable, call: Call, v: nat)
    requires ValidCall(call) && Bounded(call.adj) && LeastWithin(call.adj, 2) && 0 < v < |call.adj|
    ensures Treelike(OutcomeOf(call))
    ensures Reached(OutcomeOf(call), v) <==>
            exists walk :: IsWalk(call.adj, walk) && End(walk) == v && Weight(walk) < UNREACHED
    ensures Reached(OutcomeOf(call), v) ==>
              exists walk :: IsLightest(call.adj, walk, v)
                && RoutesAlong(call.addresses, Tabulated(table, OutcomeOf(call)), call.addresses[v], walk)
  {
    hide Calculated, OutcomeOf, Tabulated, LeastWithin, Closed, Bounded, Treelike, Labelled, Chased;
    var o := OutcomeOf(call);
    var adj := call.adj;
    BoundedIsTreelike(call);
    OutcomeFacts(call);
    TwoHopGraphsAreRight(adj);
    PrehopsFormForest(adj, false);
    ShortestIffNoEdgeRelaxes(adj, false);
    var r := Calculated(adj, false).value;
    var d := Distances(r);
    if walk :| IsWalk(adj, walk) && End(walk) == v && Weight(walk) < UNREACHED {
      assert d[v] <= Weight(walk);
    }
    if Reached(o, v) {
      var walk :| PathWithin(adj, r.prehop, v, d[v], walk) && Weight(walk) == d[v];
      assert IsLightest(adj, walk, v);
      LightestIsRouted(table, call, v, walk);
    }
  }

  lemma LightestIsRouted(table: NFTable, call: Call, v: nat, walk: Walk)
    requires ValidCall(call) && Treelike(OutcomeOf(call)) && Reached(OutcomeOf(call), v) && v != 0
    requires Follows(OutcomeOf(call).prehop, walk) && End(walk) == v < |OutcomeOf(call).graph|
    requires Weight(walk) == OutcomeOf(call).graph[v].distance && OutcomeOf(call).addresses == call.addresses
    requires |call.addresses| == |OutcomeOf(call).graph|
    ensures RoutesAlong(call.addresses, Tabulated(table, OutcomeOf(call)), call.addresses[v], walk)
  {
    hide OutcomeOf, Tabulated, Treelike, Chased;
    var o := OutcomeOf(call);
    assert walk.Hop?;
    TreelikeIsComplete(o);
    WalkFindsFirstHop(table, o, walk);
    assert Position(o.addresses, call.addresses[v]) == v;
    TabulatedEntry(table, o, call.addresses[v]);
  }
}
