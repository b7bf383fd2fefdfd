/** The next-hop table: how CalculateTable rewrites it, and why walking it always ends. */
module Routing {
  import opened Addresses
  import opened Metrics
  import opened Options
  import opened BHeap
  import opened ShortestPaths
  import opened LinkState

  datatype NFTableEntry = NFTableEntry(destination: Ipv4Address, prehop: Ipv4Address, interface: nat, nf_etox: NFMetric)

  type NFTable = map<Ipv4Address, NFTableEntry>

  /** One call of CalculateTable: the addresses of the network and its adjacency list. */
  datatype Call = Call(addresses: seq<Ipv4Address>, adj: AdjList)

  /** Addresses are distinct (a network never adds one twice).  Nothing relates one call to the next. */
  ghost predicate ValidCall(call: Call) {
    |call.addresses| == |call.adj| && Closed(call.adj) && Distinct(call.addresses)
  }

  ghost predicate Distinct(addresses: seq<Ipv4Address>) {
    forall i, j | 0 <= i < j < |addresses| :: addresses[i] != addresses[j]
  }

  // ---------- The operations on values ----------

  /** What a call has at hand when it fills the table. */
  datatype Outcome = Outcome(addresses: seq<Ipv4Address>, graph: seq<NodeDistance>, prehop: seq<nat>)

  ghost function OutcomeOf(call: Call): (o: Outcome)
    requires ValidCall(call)
    ensures Complete(o)
  {
    EveryNodeExtractedOnce(call.adj, false);
    var run := Calculated(call.adj, false).value;
    Outcome(call.addresses, run.heap.graph, run.prehop)
  }

  ghost predicate Reached(o: Outcome, v: nat) {
    v < |o.prehop| && o.prehop[v] < |o.prehop|
  }

  /** One record and one predecessor per node, and distinct addresses. */
  ghost predicate Complete(o: Outcome) {
    && |o.addresses| == |o.graph| == |o.prehop| > 0 && Distinct(o.addresses)
    && forall v | 0 <= v < |o.graph| :: o.graph[v].node == v
  }

  /** The predecessors of the reached nodes form a tree rooted at node 0. */
  ghost predicate Treelike(o: Outcome) {
    && Complete(o)
    && o.prehop[0] == |o.prehop|
    && (forall v: nat | Reached(o, v) :: exists k: nat :: Rooted(o.prehop, v, k))
  }

  lemma BoundedIsTreelike(call: Call)
    requires ValidCall(call) && Bounded(call.adj)
    ensures Treelike(OutcomeOf(call))
  {
    CalculatedForest(call.adj, false);
  }

  /** What the loop over nodes writes for index i, if anything. */
  ghost function EntryFor(o: Outcome, i: nat): Option<NFTableEntry>
    requires i < |o.graph| && |o.prehop| == |o.addresses|
  {
    var node := o.graph[i].node;
    if node >= |o.addresses| || o.prehop[node] >= |o.addresses| then None
    else
      var pre := if o.prehop[node] == 0 then o.addresses[node] else o.addresses[o.prehop[node]];
      Some(NFTableEntry(o.addresses[node], pre, 1, o.graph[i].distance))
  }

  /** The table after the first k turns of that loop. */
  ghost function Written(table: NFTable, o: Outcome, k: nat): NFTable
    requires k <= |o.graph| && |o.prehop| == |o.addresses|
  {
    if k == 0 then table
    else
      var before := Written(table, o, k - 1);
      match EntryFor(o, k - 1)
      case None => before
      case Some(entry) => before[entry.destination := entry]
  }

  ghost function Tabulated(table: NFTable, o: Outcome): NFTable
    requires Complete(o)
  {
    Written(table, o, |o.prehop|)
  }

  lemma TabulatedIsWritten(table: NFTable, o: Outcome)
    requires Complete(o)
    ensures Tabulated(table, o) == Written(table, o, |o.prehop|)
  {
  }

  /** The table after any sequence of calls, starting from the empty one. */
  ghost function TableAfter(calls: seq<Call>): NFTable
    requires forall c | c in calls :: ValidCall(c)
  {
    if calls == [] then map[]
    else Tabulated(TableAfter(calls[..|calls| - 1]), OutcomeOf(calls[|calls| - 1]))
  }

  /** Walking the table from an entry for at most `fuel` look-ups. */
  datatype Chase = Unfinished | NotFound | Found(entry: NFTableEntry)

  ghost function Chased(table: NFTable, entry: NFTableEntry, fuel: nat): Chase
    decreases fuel
  {
    if entry.destination == entry.prehop then Found(entry)
    else if entry.prehop !in table then NotFound
    else if fuel == 0 then Unfinished
    else Chased(table, table[entry.prehop], fuel - 1)
  }

  // ---------- What a call writes ----------

  /** The index of an address, or the number of addresses. */
  ghost function Position(addresses: seq<Ipv4Address>, a: Ipv4Address): (i: nat)
    ensures i <= |addresses| && (i < |addresses| ==> addresses[i] == a)
    ensures forall k | 0 <= k < i :: addresses[k] != a
  {
    if addresses == [] || addresses[0] == a then 0 else 1 + Position(addresses[1..], a)
  }

  ghost predicate WrittenAt(o: Outcome, a: Ipv4Address, k: nat)
    requires |o.addresses| == |o.prehop|
  {
    Position(o.addresses, a) < k && Reached(o, Position(o.addresses, a))
  }

  lemma {:induction false} WrittenEntry(table: NFTable, o: Outcome, k: nat, a: Ipv4Address)
    requires Treelike(o) && k <= |o.graph|
    ensures var t := Written(table, o, k);
            if WrittenAt(o, a, k) then a in t && Some(t[a]) == EntryFor(o, Position(o.addresses, a))
            else (a in t <==> a in table) && (a in t ==> t[a] == table[a])
  {
    hide EntryFor, Reached;
    if k == 0 {
    } else {
      WrittenEntry(table, o, k - 1, a);
      EntryForIff(o, k - 1);
      if Position(o.addresses, a) < |o.addresses| && Position(o.addresses, a) != k - 1 {
        assert o.addresses[k - 1] != a;
      }
    }
  }

  /** A node gets an entry, under its address, exactly if it is reached: through interface 1, at the distance
      found. */
  lemma EntryForIff(o: Outcome, i: nat)
    requires Treelike(o) && i < |o.graph|
    ensures EntryFor(o, i).Some? <==> Reached(o, i)
    ensures EntryFor(o, i).Some? ==>
              var e := EntryFor(o, i).value;
              e.destination == o.addresses[i] && e.interface == 1 && e.nf_etox == o.graph[i].distance
  {
  }

  lemma ReachedPrehop(o: Outcome, v: nat)
    requires Treelike(o) && Reached(o, v)
    ensures v != 0 && (o.prehop[v] != 0 ==> Reached(o, o.prehop[v]))
  {
    var k: nat :| Rooted(o.prehop, v, k);
    assert Rooted(o.prehop, o.prehop[v], k - 1);
  }

  /** A call rewrites exactly the entries of the reached nodes, with interface 1 and the distance found.  The
      prehop of such an entry is its own destination when node 0 precedes the node, and otherwise that of
      another reached node. */
  lemma TabulatedEntry(table: NFTable, o: Outcome, a: Ipv4Address)
    requires Treelike(o)
    ensures var v := Position(o.addresses, a);
            var t := Tabulated(table, o);
            if Reached(o, v) then
              && a in t && t[a].destination == a && t[a].interface == 1 && t[a].nf_etox == o.graph[v].distance
              && (if o.prehop[v] == 0 then t[a].prehop == a
                  else Reached(o, o.prehop[v]) && t[a].prehop == o.addresses[o.prehop[v]]
                       && Position(o.addresses, t[a].prehop) == o.prehop[v])
            else (a in t <==> a in table) && (a in t ==> t[a] == table[a])
  {
    WrittenEntry(table, o, |o.prehop|, a);
    if Reached(o, Position(o.addresses, a)) {
      EntryForIff(o, Position(o.addresses, a));
      ReachedPrehop(o, Position(o.addresses, a));
    }
  }

  /** Every reached node has an entry for its address, through interface 1 and at the distance found. */
  ghost predicate HasReached(table: NFTable, o: Outcome)
    requires |o.addresses| == |o.graph| == |o.prehop|
  {
    forall v: nat | Reached(o, v) ::
      && o.addresses[v] in table && table[o.addresses[v]].destination == o.addresses[v]
      && table[o.addresses[v]].interface == 1 && table[o.addresses[v]].nf_etox == o.graph[v].distance
  }

  lemma TabulatedHasReached(table: NFTable, o: Outcome)
    requires Treelike(o)
    ensures HasReached(Tabulated(table, o), o)
  {
    hide Tabulated;
    forall v: nat | Reached(o, v)
      ensures var t, a := Tabulated(table, o), o.addresses[v];
              a in t && t[a].destination == a && t[a].interface == 1 && t[a].nf_etox == o.graph[v].distance
    {
      assert Position(o.addresses, o.addresses[v]) == v;
      TabulatedEntry(table, o, o.addresses[v]);
    }
  }

  // ---------- Why walking the table ends ----------

  /** When each entry was last written, and how deep its node then was in the predecessor tree. */
  datatype Rank = Rank(call: nat, depth: nat)

  ghost predicate Below(p: Rank, q: Rank) {
    q.call < p.call || (q.call == p.call && p.depth < q.depth)
  }

  /** Every entry either is a next hop or points at an entry that was written by a later call, or by
      the same call nearer to the root. */
  ghost predicate Descends(table: NFTable, ranks: map<Ipv4Address, Rank>, calls: nat) {
    && ranks.Keys == table.Keys
    && forall a | a in table ::
         && table[a].destination == a && ranks[a].call <= calls
         && (table[a].prehop != a ==> table[a].prehop in table && Below(ranks[table[a].prehop], ranks[a]))
  }

  /** The number of steps from a reached node to node 0. */
  ghost function DepthOf(o: Outcome, v: nat): (k: nat)
    requires Treelike(o) && Reached(o, v)
    ensures Rooted(o.prehop, v, k)
  {
    var k: nat :| Rooted(o.prehop, v, k);
    k
  }

  lemma {:induction false} RootedOnce(prehop: seq<nat>, v: nat, k: nat, k': nat)
    requires Rooted(prehop, v, k) && Rooted(prehop, v, k')
    ensures k == k'
    decreases k
  {
    if v != 0 {
      RootedOnce(prehop, prehop[v], k - 1, k' - 1);
    }
  }

  lemma PrehopIsShallower(o: Outcome, v: nat)
    requires Treelike(o) && Reached(o, v) && o.prehop[v] != 0
    ensures Reached(o, o.prehop[v]) && DepthOf(o, o.prehop[v]) < DepthOf(o, v)
  {
    ReachedPrehop(o, v);
    RootedOnce(o.prehop, o.prehop[v], DepthOf(o, o.prehop[v]), DepthOf(o, v) - 1);
  }

  /** The ranks after a call: reached nodes get the number of the call and their depth. */
  ghost function Reranked(table: NFTable, ranks: map<Ipv4Address, Rank>, calls: nat,
                          o: Outcome): (r: map<Ipv4Address, Rank>)
    requires Treelike(o) && ranks.Keys == table.Keys
    ensures r.Keys == Tabulated(table, o).Keys
  {
    map a | a in Tabulated(table, o) ::
      if Reached(o, Position(o.addresses, a)) then Rank(calls + 1, DepthOf(o, Position(o.addresses, a)))
      else TabulatedEntry(table, o, a); ranks[a]
  }

  lemma TreelikeIsComplete(o: Outcome)
    requires Treelike(o)
    ensures Complete(o)
  {
  }

  /** A call preserves the descent, whatever the table and the network looked like before. */
  lemma TabulatedDescends(table: NFTable, ranks: map<Ipv4Address, Rank>, calls: nat, o: Outcome)
    requires Treelike(o) && Descends(table, ranks, calls)
    ensures Descends(Tabulated(table, o), Reranked(table, ranks, calls, o), calls + 1)
  {
    hide Tabulated, DepthOf, Complete;
    TreelikeIsComplete(o);
    var t := Tabulated(table, o);
    var r := Reranked(table, ranks, calls, o);
    forall a | a in t
      ensures t[a].destination == a && r[a].call <= calls + 1
      ensures t[a].prehop != a ==> t[a].prehop in t && Below(r[t[a].prehop], r[a])
    {
      var v := Position(o.addresses, a);
      TabulatedEntry(table, o, a);
      TabulatedEntry(table, o, t[a].prehop);
      if Reached(o, v) && o.prehop[v] != 0 {
        PrehopIsShallower(o, v);
      }
    }
  }

  lemma {:induction false} TableAfterDescends(calls: seq<Call>) returns (ranks: map<Ipv4Address, Rank>)
    requires forall c | c in calls :: ValidCall(c) && Bounded(c.adj)
    ensures Descends(TableAfter(calls), ranks, |calls|)
  {
    hide Tabulated, OutcomeOf, Reranked, Treelike, Closed, Bounded;
    if calls == [] {
      ranks := map[];
    } else {
      var front, last := calls[..|calls| - 1], OutcomeOf(calls[|calls| - 1]);
      ranks := TableAfterDescends(front);
      BoundedIsTreelike(calls[|calls| - 1]);
      TabulatedDescends(TableAfter(front), ranks, |front|, last);
      ranks := Reranked(TableAfter(front), ranks, |front|, last);
    }
  }

  ghost predicate ReachesNextHop(table: NFTable, a: Ipv4Address, fuel: nat)
    requires a in table
  {
    var r := Chased(table, table[a], fuel);
    r.Found? && r.entry.destination == r.entry.prehop && r.entry.destination in table
      && r.entry == table[r.entry.destination]
  }

  lemma {:induction false} DescentEnds(table: NFTable, ranks: map<Ipv4Address, Rank>, calls: nat,
                                       a: Ipv4Address) returns (fuel: nat)
    requires Descends(table, ranks, calls) && a in table
    ensures ReachesNextHop(table, a, fuel)
    decreases calls - ranks[a].call, ranks[a].depth
  {
    if table[a].prehop == a {
      fuel := 0;
    } else {
      fuel := DescentEnds(table, ranks, calls, table[a].prehop);
      fuel := fuel + 1;
    }
  }

  /** After any sequence of calls, on networks that may change in any way between them, walking the
      table from any of its entries ends at the entry of a next hop: stale entries never trap it. */
  lemma WalkAlwaysEnds(calls: seq<Call>, a: Ipv4Address)
    requires (forall c | c in calls :: ValidCall(c) && Bounded(c.adj)) && a in TableAfter(calls)
    ensures exists fuel: nat :: ReachesNextHop(TableAfter(calls), a, fuel)
  {
    var ranks := TableAfterDescends(calls);
    var fuel := DescentEnds(TableAfter(calls), ranks, |calls|, a);
  }

  // ---------- What the walk finds ----------

  ghost function FirstHop(walk: Walk): nat
    requires walk.Hop?
  {
    if walk.prev.Origin? then walk.node else FirstHop(walk.prev)
  }

  /** Right after a call, walking from a reached destination finds the entry of the first hop of the
      predecessor path to it, whatever was in the table before. */
  lemma {:induction false} WalkFindsFirstHop(table: NFTable, o: Outcome, walk: Walk)
    requires Treelike(o) && walk.Hop? && Reached(o, End(walk)) && Follows(o.prehop, walk)
    ensures FirstHop(walk) < |o.addresses| && o.addresses[End(walk)] in Tabulated(table, o)
    ensures var t := Tabulated(table, o);
            var gateway := o.addresses[FirstHop(walk)];
            && gateway in t && t[gateway].destination == t[gateway].prehop == gateway
            && Chased(t, t[o.addresses[End(walk)]], Hops(walk)) == Found(t[gateway])
  {
    hide Tabulated;
    var a := o.addresses[End(walk)];
    assert Position(o.addresses, a) == End(walk);
    TabulatedEntry(table, o, a);
    if walk.prev.Hop? {
      WalkFindsFirstHop(table, o, walk.prev);
      PrehopIsShallower(o, End(walk));
    }
  }

  /** The call a network in the given state gives rise to. */
  ghost function CallOf(nodes: seq<NodeState>): Call {
    Call(seq(|nodes|, i requires 0 <= i < |nodes| => nodes[i].address), AdjListOf(nodes))
  }

  lemma CallIsValid(nodes: seq<NodeState>)
    requires |nodes| > 0 && DistinctAddresses(nodes)
    ensures ValidCall(CallOf(nodes))
  {
    AdjListIsClosed(nodes);
  }

  // ---------- The class ----------

  class LinkStateRouting {
    var network: LinkStateNetwork
    var nftable: NFTable
    /** The calls of CalculateTable so far. */
    ghost var calls: seq<Call>

    ghost predicate Valid()
      reads this, network, network.nodes
    {
      && network.Valid()
      && (forall c | c in calls :: ValidCall(c))
      && nftable == TableAfter(calls)
    }

    ghost function CurrentCall(): Call
      reads this`network, network, network.nodes
    {
      CallOf(network.View())
    }

    constructor (network: LinkStateNetwork)
      requires network.Valid()
      ensures Valid() && nftable == map[] && this.network == network
    {
      this.network := network;
      nftable := map[];
      calls := [];
    }

    method CalculateTable()
      requires Valid() && |network.nodes| > 0
      modifies this`nftable, this`calls
      ensures Valid() && ValidCall(CurrentCall()) && calls == old(calls) + [CurrentCall()]
      ensures nftable == Tabulated(old(nftable), OutcomeOf(CurrentCall()))
      ensures Bounded(CurrentCall().adj) ==> HasReached(nftable, OutcomeOf(CurrentCall()))
    {
      hide ValidCall, CallOf, Tabulated, AdjListOf, Written, OutcomeOf;
      CallIsValid(network.View());
      var distances, prehops := Solve();
      FillTable(distances, prehops);
      TabulatedIsWritten(old(nftable), OutcomeOf(CurrentCall()));
      calls := calls + [CurrentCall()];
      assert calls[..|calls| - 1] == old(calls);
      if Bounded(CurrentCall().adj) {
        BoundedIsTreelike(CurrentCall());
        TabulatedHasReached(old(nftable), OutcomeOf(CurrentCall()));
      }
    }

    method Solve() returns (distances: seq<NodeDistance>, prehops: seq<nat>)
      requires network.Valid() && ValidCall(CurrentCall())
      ensures |distances| == |prehops| == |network.nodes|
      ensures Outcome(CurrentCall().addresses, distances, prehops) == OutcomeOf(CurrentCall())
    {
      hide AdjListOf, Calculated, Closed;
      var adjList := network.GenerateAdjList();
      EveryNodeExtractedOnce(adjList, false);
      var dijkstra := new Dijkstra(adjList);
      var ok, run := dijkstra.Calculate(false);
      return dijkstra.graph[..], dijkstra.prehop;
    }

    /** The loop over the results. */
    method FillTable(distances: seq<NodeDistance>, prehops: seq<nat>)
      requires |distances| == |prehops| == |network.nodes|
      modifies this`nftable
      ensures nftable == Written(old(nftable), Outcome(CurrentCall().addresses, distances, prehops), |prehops|)
    {
      ghost var o := Outcome(CurrentCall().addresses, distances, prehops);
      for i := 0 to |prehops|
        invariant nftable == Written(old(nftable), o, i)
      {
        var node := distances[i].node;
        if node < |network.nodes| && prehops[node] < |network.nodes| {
          var destAddr := network.nodes[node].address;
          var preAddr := if prehops[node] == 0 then network.nodes[node].address
              else network.nodes[prehops[node]].address;
          nftable := nftable - {destAddr};
          nftable := nftable[destAddr := NFTableEntry(destAddr, preAddr, 1, distances[i].distance)];
          assert EntryFor(o, i) == Some(nftable[destAddr]);
          assert nftable == Written(old(nftable), o, i)[destAddr := nftable[destAddr]];
        }
      }
    }

    method LookupNFTable(dest: Ipv4Address) returns (found: bool, outEntry: NFTableEntry)
      ensures found == (dest in nftable)
      ensures found ==> outEntry == nftable[dest]
    {
      if dest in nftable {
        return true, nftable[dest];
      }
      return false, NFTableEntry(0, 0, 0, 0);
    }

    /** Terminates and succeeds for every entry of the table in every state reached by calls on networks
        with bounded weights. */
    method FindSendEntry(entry: NFTableEntry) returns (found: bool, outEntry: NFTableEntry)
      requires Valid() && (forall c | c in calls :: Bounded(c.adj)) && entry in nftable.Values
      ensures found && outEntry.destination == outEntry.prehop
      ensures exists fuel: nat :: Chased(nftable, entry, fuel) == Found(outEntry)
    {
      hide TableAfter;
      ghost var ranks := TableAfterDescends(calls);
      outEntry := entry;
      ghost var steps: nat := 0;
      while outEntry.destination != outEntry.prehop
        invariant outEntry.destination in nftable && outEntry == nftable[outEntry.destination]
        invariant ChasedInTwo(nftable, entry, outEntry, steps)
        decreases |calls| - ranks[outEntry.destination].call, ranks[outEntry.destination].depth
      {
        ChasedOneMore(nftable, entry, outEntry, steps);
        found, outEntry := LookupNFTable(outEntry.prehop);
        steps := steps + 1;
      }
      assert Chased(nftable, outEntry, 0) == Found(outEntry);
      assert Chased(nftable, entry, steps + 0) == Found(outEntry);
      found := true;
    }
  }

  /** After `steps` look-ups from `entry` the walk stands at `current`. */
  ghost predicate ChasedInTwo(table: NFTable, entry: NFTableEntry, current: NFTableEntry, steps: nat) {
    forall fuel: nat :: Chased(table, entry, steps + fuel) == Chased(table, current, fuel)
  }

  lemma ChasedOneMore(table: NFTable, entry: NFTableEntry, current: NFTableEntry, steps: nat)
    requires ChasedInTwo(table, entry, current, steps)
    requires current.destination != current.prehop && current.prehop in table
    ensures ChasedInTwo(table, entry, table[current.prehop], steps + 1)
  {
    forall fuel: nat
      ensures Chased(table, entry, steps + 1 + fuel) == Chased(table, table[current.prehop], fuel)
    {
      assert Chased(table, entry, steps + (1 + fuel)) == Chased(table, current, 1 + fuel);
    }
  }
}
