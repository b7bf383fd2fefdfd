/** The database every node keeps of the hellos it has heard, and the adjacency list drawn from it. */
module LinkState {
  import opened Addresses
  import opened Metrics
  import opened Options
  import opened ShortestPaths

  datatype NFPair = NFPair(address: Ipv4Address, nf_etox: NFMetric)

  /** The routing hello: who sent it, when, and the metrics of its links. */
  datatype Hello = Hello(address: Ipv4Address, time: nat, pairs: seq<NFPair>, ttl: nat, original: bool)

  /** What is known of one node, and whether it was recently heard directly. */
  datatype NodeState = NodeState(address: Ipv4Address, time: nat, pairs: seq<NFPair>, neighbor: bool)

  // ---------- The operations on values ----------

  /** The first metric listed for an address, or 0. */
  function MetricOf(pairs: seq<NFPair>, address: Ipv4Address): NFMetric {
    if pairs == [] then 0
    else if pairs[0].address == address then pairs[0].nf_etox
    else MetricOf(pairs[1..], address)
  }

  /** Overwrites the first metric listed for an address, or appends one. */
  function WithMetric(pairs: seq<NFPair>, address: Ipv4Address, metric: NFMetric): seq<NFPair> {
    if pairs == [] then [NFPair(address, metric)]
    else if pairs[0].address == address then [NFPair(address, metric)] + pairs[1..]
    else [pairs[0]] + WithMetric(pairs[1..], address, metric)
  }

  lemma {:induction false} WithMetricAt(pairs: seq<NFPair>, address: Ipv4Address, metric: NFMetric, i: nat)
    requires i <= |pairs| && forall k | 0 <= k < i :: pairs[k].address != address
    requires i < |pairs| ==> pairs[i].address == address
    ensures WithMetric(pairs, address, metric) ==
            if i < |pairs| then pairs[i := NFPair(address, metric)] else pairs + [NFPair(address, metric)]
  {
    if i == 0 {
    } else {
      WithMetricAt(pairs[1..], address, metric, i - 1);
    }
  }

  ghost predicate Lists(pairs: seq<NFPair>, address: Ipv4Address) {
    exists k :: 0 <= k < |pairs| && pairs[k].address == address
  }

  /** Where an address is listed first. */
  lemma {:induction false} FirstListed(pairs: seq<NFPair>, address: Ipv4Address) returns (i: nat)
    ensures i <= |pairs| && forall k | 0 <= k < i :: pairs[k].address != address
    ensures i < |pairs| ==> pairs[i].address == address
    ensures MetricOf(pairs, address) == if i < |pairs| then pairs[i].nf_etox else 0
  {
    if pairs == [] || pairs[0].address == address {
      i := 0;
    } else {
      i := FirstListed(pairs[1..], address);
      i := i + 1;
    }
  }

  /** Entering a metric changes what is listed for that address, and for no other. */
  lemma MetricEntered(pairs: seq<NFPair>, address: Ipv4Address, metric: NFMetric, other: Ipv4Address)
    ensures var r := WithMetric(pairs, address, metric);
            && MetricOf(r, other) == (if other == address then metric else MetricOf(pairs, other))
            && (Lists(r, other) <==> other == address || Lists(pairs, other))
            && (DistinctPairs(pairs) ==> DistinctPairs(r))
  {
    hide MetricOf, WithMetric;
    var r := WithMetric(pairs, address, metric);
    var i := FirstListed(pairs, address);
    var j := FirstListed(pairs, other);
    var k := FirstListed(r, other);
    WithMetricAt(pairs, address, metric, i);
    assert forall x | 0 <= x < |pairs| :: r[x].address == pairs[x].address;
    assert r[i].address == address;
  }

  /** The position of an address in the network, or its size. */
  function IndexOf(nodes: seq<NodeState>, address: Ipv4Address): (i: nat)
    ensures i <= |nodes|
    ensures i < |nodes| ==> nodes[i].address == address
    ensures forall k | 0 <= k < i :: nodes[k].address != address
  {
    if nodes == [] then 0
    else if nodes[0].address == address then 0
    else 1 + IndexOf(nodes[1..], address)
  }

  function Heard(node: NodeState, hello: Hello): NodeState {
    node.(pairs := hello.pairs, time := hello.time)
  }

  /** A hello adds its unknown sender, and replaces the entry of a known one only if it is newer. */
  function Updated(nodes: seq<NodeState>, hello: Hello): seq<NodeState> {
    var i := IndexOf(nodes, hello.address);
    if i == |nodes| then nodes + [NodeState(hello.address, hello.time, hello.pairs, false)]
    else if hello.time > nodes[i].time then nodes[i := Heard(nodes[i], hello)]
    else nodes
  }

  /** An update moves no node, and afterwards the sender is known. */
  lemma UpdatedIndex(nodes: seq<NodeState>, hello: Hello)
    ensures IndexOf(Updated(nodes, hello), hello.address) == IndexOf(nodes, hello.address) < |Updated(nodes, hello)|
  {
    var i := IndexOf(nodes, hello.address);
    assert Updated(nodes, hello)[i].address == hello.address;
  }

  ghost predicate DistinctAddresses(nodes: seq<NodeState>) {
    forall i, j | 0 <= i < j < |nodes| :: nodes[i].address != nodes[j].address
  }

  // ---------- The adjacency list ----------

  /** The weight node i gives its link to the listed address: its own metric, unless the other end
      lists a non-zero metric for i and was updated later. */
  function Reconciled(nodes: seq<NodeState>, i: nat, pair: NFPair): NFMetric
    requires i < |nodes|
  {
    var j := IndexOf(nodes, pair.address);
    if j < |nodes| && MetricOf(nodes[j].pairs, nodes[i].address) != 0 && nodes[i].time < nodes[j].time
    then MetricOf(nodes[j].pairs, nodes[i].address) else pair.nf_etox
  }

  function Row(nodes: seq<NodeState>, i: nat, pairs: seq<NFPair>): seq<AdjNode>
    requires i < |nodes|
  {
    if pairs == [] then []
    else
      var rest := Row(nodes, i, pairs[..|pairs| - 1]);
      var last := pairs[|pairs| - 1];
      if IndexOf(nodes, last.address) < |nodes|
      then rest + [AdjNode(IndexOf(nodes, last.address), Reconciled(nodes, i, last))] else rest
  }

  lemma RowStarts(nodes: seq<NodeState>, i: nat)
    requires i < |nodes|
    ensures Row(nodes, i, []) == []
  {
  }

  lemma RowGrows(nodes: seq<NodeState>, i: nat, pairs: seq<NFPair>, k: nat)
    requires i < |nodes| && k < |pairs|
    ensures var rest, index := Row(nodes, i, pairs[..k]), IndexOf(nodes, pairs[k].address);
            Row(nodes, i, pairs[..k + 1]) == if index < |nodes| then rest
              + [AdjNode(index, Reconciled(nodes, i, pairs[k]))] else rest
  {
    assert pairs[..k + 1][..k] == pairs[..k];
  }

  function AdjListOf(nodes: seq<NodeState>): AdjList {
    seq(|nodes|, i requires 0 <= i < |nodes| => Row(nodes, i, nodes[i].pairs))
  }

  /** A row holds exactly one edge for each listed address that belongs to a known node. */
  lemma {:induction false} RowEdges(nodes: seq<NodeState>, i: nat, pairs: seq<NFPair>, e: AdjNode)
    requires i < |nodes|
    ensures e in Row(nodes, i, pairs) <==>
      exists pair :: pair in pairs && IndexOf(nodes, pair.address) == e.node < |nodes|
        && e.weight == Reconciled(nodes, i, pair)
    decreases |pairs|
  {
    if pairs == [] {
    } else {
      var front, last := pairs[..|pairs| - 1], pairs[|pairs| - 1];
      assert pairs == front + [last];
      RowEdges(nodes, i, front, e);
      assert forall pair :: pair in pairs <==> pair in front || pair == last;
    }
  }

  /** One row per node in network order, and every edge leads to a node of the network. */
  lemma AdjListIsClosed(nodes: seq<NodeState>)
    requires |nodes| > 0
    ensures |AdjListOf(nodes)| == |nodes| && Closed(AdjListOf(nodes))
  {
    forall u, e | 0 <= u < |nodes| && e in AdjListOf(nodes)[u]
      ensures e.node < |nodes|
    {
      RowEdges(nodes, u, nodes[u].pairs, e);
    }
  }

  /** No address is listed twice. */
  ghost predicate DistinctPairs(pairs: seq<NFPair>) {
    forall i, j | 0 <= i < j < |pairs| :: pairs[i].address != pairs[j].address
  }

  lemma {:induction false} MetricOfListed(pairs: seq<NFPair>, pair: NFPair)
    requires DistinctPairs(pairs) && pair in pairs
    ensures MetricOf(pairs, pair.address) == pair.nf_etox
  {
    if pairs[0] != pair {
      assert pair in pairs[1..];
      MetricOfListed(pairs[1..], pair);
    }
  }

  /** The only weight row i holds for node j, when i lists j with metric a and j lists i with b. */
  lemma LinkWeight(nodes: seq<NodeState>, i: nat, j: nat, a: NFMetric, b: NFMetric, w: NFMetric)
    requires i < |nodes| && j < |nodes| && DistinctAddresses(nodes)
    requires DistinctPairs(nodes[i].pairs) && DistinctPairs(nodes[j].pairs)
    requires NFPair(nodes[j].address, a) in nodes[i].pairs && NFPair(nodes[i].address, b) in nodes[j].pairs
    ensures Edge(AdjListOf(nodes), i, j, w) <==> w == (if b != 0 && nodes[i].time < nodes[j].time then b else a)
  {
    RowEdges(nodes, i, nodes[i].pairs, AdjNode(j, w));
    assert IndexOf(nodes, nodes[j].address) == j;
    MetricOfListed(nodes[j].pairs, NFPair(nodes[i].address, b));
    forall pair | pair in nodes[i].pairs && pair.address == nodes[j].address
      ensures pair.nf_etox == a
    {
      MetricOfListed(nodes[i].pairs, pair);
      MetricOfListed(nodes[i].pairs, NFPair(nodes[j].address, a));
    }
    assert Reconciled(nodes, i, NFPair(nodes[j].address, a)) == if b != 0 && nodes[i].time < nodes[j].time then b
        else a;
  }

  /** The two directions of a mutually listed link get the same weight if and only if both ends
      gave the same metric or the one updated later gave a non-zero one, which then is the weight. */
  lemma DirectionsAgreeIff(nodes: seq<NodeState>, i: nat, j: nat, a: NFMetric, b: NFMetric)
    requires i < |nodes| && j < |nodes| && DistinctAddresses(nodes)
    requires DistinctPairs(nodes[i].pairs) && DistinctPairs(nodes[j].pairs)
    requires NFPair(nodes[j].address, a) in nodes[i].pairs && NFPair(nodes[i].address, b) in nodes[j].pairs
    ensures (exists w: NFMetric :: Edge(AdjListOf(nodes), i, j, w) && Edge(AdjListOf(nodes), j, i, w))
       <==> a == b || (nodes[i].time < nodes[j].time && b != 0) || (nodes[j].time < nodes[i].time && a != 0)
    ensures nodes[i].time < nodes[j].time && b != 0 ==> forall w: NFMetric ::
              (Edge(AdjListOf(nodes), i, j, w) <==> w == b) && (Edge(AdjListOf(nodes), j, i, w) <==> w == b)
    ensures nodes[j].time < nodes[i].time && a != 0 ==> forall w: NFMetric ::
              (Edge(AdjListOf(nodes), i, j, w) <==> w == a) && (Edge(AdjListOf(nodes), j, i, w) <==> w == a)
  {
    hide AdjListOf, Edge;
    forall w: NFMetric
      ensures Edge(AdjListOf(nodes), i, j, w) <==> w == (if b != 0 && nodes[i].time < nodes[j].time then b else a)
      ensures Edge(AdjListOf(nodes), j, i, w) <==> w == (if a != 0 && nodes[j].time < nodes[i].time then a else b)
    {
      LinkWeight(nodes, i, j, a, b, w);
      LinkWeight(nodes, j, i, b, a, w);
    }
    var wi := if b != 0 && nodes[i].time < nodes[j].time then b else a;
    assert Edge(AdjListOf(nodes), i, j, wi);
  }

  // ---------- The classes ----------

  class LinkStateNode {
    const address: Ipv4Address
    var time: nat
    var pairs: seq<NFPair>
    var neighbor: bool

    ghost function View(): NodeState
      reads this
    {
      NodeState(address, time, pairs, neighbor)
    }

    constructor (address: Ipv4Address, time: nat)
      ensures View() == NodeState(address, time, [], false)
    {
      this.address := address;
      this.time := time;
      pairs := [];
      neighbor := false;
    }

    method Update(hello: Hello)
      modifies this
      ensures View() == Heard(old(View()), hello)
    {
      pairs := hello.pairs;
      time := hello.time;
    }

    method SetNeighbor()
      modifies this
      ensures View() == old(View()).(neighbor := true)
    {
      neighbor := true;
    }

    method GetMetric(address: Ipv4Address) returns (metric: NFMetric)
      ensures metric == MetricOf(pairs, address)
    {
      for i := 0 to |pairs|
        invariant MetricOf(pairs[i..], address) == MetricOf(pairs, address)
      {
        if pairs[i].address == address {
          return pairs[i].nf_etox;
        }
      }
      return 0;
    }

    method AddMetric(address: Ipv4Address, metric: NFMetric)
      modifies this
      ensures View() == old(View()).(pairs := WithMetric(old(pairs), address, metric))
    {
      for i := 0 to |pairs|
        invariant View() == old(View())
        invariant forall k | 0 <= k < i :: pairs[k].address != address
      {
        if pairs[i].address == address {
          WithMetricAt(pairs, address, metric, i);
          pairs := pairs[i := NFPair(address, metric)];
          return;
        }
      }
      WithMetricAt(pairs, address, metric, |pairs|);
      pairs := pairs + [NFPair(address, metric)];
    }
  }

  class LinkStateNetwork {
    var nodes: seq<LinkStateNode>

    ghost predicate Valid()
      reads this, nodes
    {
      DistinctAddresses(View())
    }

    ghost function View(): (v: seq<NodeState>)
      reads this, nodes
      ensures |v| == |nodes| && forall i | 0 <= i < |nodes| :: v[i] == nodes[i].View()
    {
      seq(|nodes|, i requires 0 <= i < |nodes| reads this, nodes => nodes[i].View())
    }

    constructor ()
      ensures View() == [] && Valid()
    {
      nodes := [];
    }

    method Index(address: Ipv4Address) returns (index: nat)
      ensures index == IndexOf(View(), address)
    {
      index := 0;
      while index < |nodes|
        invariant index <= |nodes|
        invariant forall k | 0 <= k < index :: nodes[k].address != address
      {
        if nodes[index].address == address {
          break;
        }
        index := index + 1;
      }
    }

    method Search(address: Ipv4Address) returns (node: LinkStateNode?)
      ensures node == null <==> IndexOf(View(), address) == |nodes|
      ensures node != null ==> node == nodes[IndexOf(View(), address)]
    {
      for i := 0 to |nodes|
        invariant forall k | 0 <= k < i :: nodes[k].address != address
      {
        if nodes[i].address == address {
          return nodes[i];
        }
      }
      return null;
    }

    /** Used by a node to enter itself, with time 0. */
    method AddNode(address: Ipv4Address) returns (added: bool)
      requires Valid()
      modifies this
      ensures Valid() && added == (IndexOf(old(View()), address) == |old(View())|)
      ensures View() == if added then old(View()) + [NodeState(address, 0, [], false)] else old(View())
      ensures forall n | n in nodes :: n in old(nodes) || fresh(n)
    {
      var known := Search(address);
      if known != null {
        return false;
      }
      var node := new LinkStateNode(address, 0);
      nodes := nodes + [node];
      return true;
    }

    method Update(hello: Hello) returns (node: LinkStateNode)
      requires Valid()
      modifies this, nodes
      ensures Valid() && View() == Updated(old(View()), hello)
      ensures IndexOf(View(), hello.address) < |nodes| && node == nodes[IndexOf(View(), hello.address)]
      ensures forall n | n in nodes :: n in old(nodes) || fresh(n)
    {
      var found := Search(hello.address);
      ghost var before := View();
      if found == null {
        node := AddSender(hello);
      } else {
        node := found;
        if hello.time > node.time {
          UpdateAt(IndexOf(before, hello.address), hello, node);
        }
      }
      UpdatedIndex(before, hello);
    }

    method AddSender(hello: Hello) returns (node: LinkStateNode)
      modifies this
      ensures fresh(node) && nodes == old(nodes) + [node]
      ensures View() == old(View()) + [NodeState(hello.address, hello.time, hello.pairs, false)]
    {
      node := new LinkStateNode(hello.address, hello.time);
      node.Update(hello);
      nodes := nodes + [node];
    }

    method UpdateAt(ghost i: nat, hello: Hello, node: LinkStateNode)
      requires Valid() && i < |nodes| && node == nodes[i]
      modifies node
      ensures View() == old(View())[i := Heard(old(View())[i], hello)]
    {
      ghost var before := View();
      node.Update(hello);
      forall k | 0 <= k < |nodes| && k != i
        ensures nodes[k].View() == before[k]
      {
        assert before[k].address != before[i].address;
      }
    }

    /** Fills one row per node. */
    method GenerateAdjList() returns (list: AdjList)
      requires Valid()
      ensures list == AdjListOf(View())
    {
      list := [];
      for i := 0 to |nodes|
        invariant list == AdjListOf(View())[..i]
      {
        var row := GenerateRow(i);
        list := list + [row];
      }
    }

    method GenerateRow(i: nat) returns (row: seq<AdjNode>)
      requires Valid() && i < |nodes|
      ensures row == Row(View(), i, nodes[i].pairs)
    {
      hide Row, Reconciled;
      row := [];
      var pairs := nodes[i].pairs;
      RowStarts(View(), i);
      for k := 0 to |pairs|
        invariant row == Row(View(), i, pairs[..k])
      {
        var adjNF := Reconcile(i, pairs[k]);
        var index := Index(pairs[k].address);
        RowGrows(View(), i, pairs, k);
        if index < |nodes| {
          row := row + [AdjNode(index, adjNF)];
        }
      }
      assert pairs[..|pairs|] == pairs;
    }

    method Reconcile(i: nat, pair: NFPair) returns (adjNF: NFMetric)
      requires i < |nodes|
      ensures adjNF == Reconciled(View(), i, pair)
    {
      adjNF := pair.nf_etox;
      var adjNode := Search(pair.address);
      if adjNode != null {
        var metricFromAdjNode := adjNode.GetMetric(nodes[i].address);
        if metricFromAdjNode != 0 && nodes[i].time < adjNode.time {
          adjNF := metricFromAdjNode;
        }
      }
    }
  }
}
